/** The Python string operations the settings-file codec and the runner rely on:
    `str.find`, `str.ljust`, `str.replace(c, '')`, `str.strip` (Python 2, so ASCII
    whitespace only) and `file.readlines` on the text of a whole file. */
module Text {

  /** `s.find(c)`: the offset of the first `c` in `s`, or -1 when `s` has none. */
  function Find(s: string, c: char): (r: int)
    ensures -1 <= r < |s|
    ensures r == -1 <==> c !in s
    ensures 0 <= r ==> s[r] == c && c !in s[..r]
  {
    if |s| == 0 then -1
    else if s[0] == c then 0
    else
      var k := Find(s[1..], c);
      if k < 0 then -1
      else
        assert s[..k + 1] == [s[0]] + s[1..][..k];
        k + 1
  }

  /** `n` blanks; none when `n` is not positive. */
  function Spaces(n: int): (r: string)
    ensures |r| == if n < 0 then 0 else n
    ensures forall k :: 0 <= k < |r| ==> r[k] == ' '
  {
    if n <= 0 then "" else seq(n, _ => ' ')
  }

  /** `s.ljust(w)`: `s` padded with blanks on the right up to `w` characters. A
      string already `w` or more characters long is returned whole, never cut. */
  function LJust(s: string, w: int): (r: string)
    ensures |r| == if w > |s| then w else |s|
    ensures r[..|s|] == s
    ensures forall k :: |s| <= k < |r| ==> r[k] == ' '
  {
    s + Spaces(w - |s|)
  }

  /** `s.replace(c, '')`: `s` with every occurrence of `c` deleted. */
  function RemoveAll(s: string, c: char): (r: string)
    ensures c !in r
    ensures |r| <= |s|
    ensures c !in s ==> r == s
    ensures forall d :: d != c ==> multiset(r)[d] == multiset(s)[d]
  {
    if |s| == 0 then ""
    else
      assert s == [s[0]] + s[1..];
      if s[0] == c then RemoveAll(s[1..], c)
      else [s[0]] + RemoveAll(s[1..], c)
  }

  /** Deleting a character distributes over concatenation, so `RemoveAll` only
      ever drops the deleted character and keeps every other one in place. */
  lemma {:induction false} RemoveAllAppend(a: string, b: string, c: char)
    ensures RemoveAll(a + b, c) == RemoveAll(a, c) + RemoveAll(b, c)
    decreases |a|
  {
    if |a| == 0 {
      assert a + b == b;
    } else {
      assert (a + b)[0] == a[0];
      assert (a + b)[1..] == a[1..] + b;
      RemoveAllAppend(a[1..], b, c);
    }
  }

  /** Python 2 `str.isspace` for one character: blank, tab, newline, carriage
      return, vertical tab and form feed. */
  predicate IsSpace(c: char) {
    c == ' ' || c == '\t' || c == '\n' || c == '\r' || c == '\U{000B}' || c == '\U{000C}'
  }

  predicate AllSpace(s: string) {
    forall k :: 0 <= k < |s| ==> IsSpace(s[k])
  }

  /** Number of whitespace characters at the start of `s`. */
  function LeadingSpaces(s: string): (n: nat)
    ensures n <= |s|
    ensures AllSpace(s[..n])
    ensures n == |s| || !IsSpace(s[n])
  {
    if |s| == 0 || !IsSpace(s[0]) then 0
    else
      var m := LeadingSpaces(s[1..]);
      assert s[..m + 1] == [s[0]] + s[1..][..m];
      m + 1
  }

  /** Number of whitespace characters at the end of `s`. */
  function TrailingSpaces(s: string): (n: nat)
    ensures n <= |s|
    ensures AllSpace(s[|s| - n..])
    ensures n == |s| || !IsSpace(s[|s| - n - 1])
  {
    if |s| == 0 || !IsSpace(s[|s| - 1]) then 0
    else
      var m := TrailingSpaces(s[..|s| - 1]);
      assert s[|s| - (m + 1)..] == s[..|s| - 1][|s| - 1 - m..] + [s[|s| - 1]];
      m + 1
  }

  /** `s.strip()`: the slice of `s` left once whitespace is removed from both ends. */
  function Strip(s: string): (r: string)
    ensures |r| == 0 || (!IsSpace(r[0]) && !IsSpace(r[|r| - 1]))
    ensures exists i :: 0 <= i && i + |r| <= |s| && r == s[i..i + |r|]
                        && AllSpace(s[..i]) && AllSpace(s[i + |r|..])
  {
    var i := LeadingSpaces(s);
    var t := s[i..];
    var j := TrailingSpaces(t);
    var r := t[..|t| - j];
    assert r == s[i..i + |r|];
    assert s[i + |r|..] == t[|t| - j..];
    assert |r| > 0 ==> r[0] == s[i] && r[|r| - 1] == t[|t| - j - 1];
    assert 0 <= i && i + |r| <= |s| && r == s[i..i + |r|] && AllSpace(s[..i]) && AllSpace(s[i + |r|..]);
    r
  }

  predicate EndsWithNewline(s: string) {
    |s| > 0 && s[|s| - 1] == '\n'
  }

  /** One element of `readlines()`: non-empty, with a newline at most as its last
      character. */
  predicate IsLine(s: string) {
    |s| > 0 && '\n' !in s[..|s| - 1]
  }

  /** The shape of a `readlines()` result: every element is a line and every
      element but the last ends with a newline. */
  predicate WellSplit(ls: seq<string>) {
    && (forall k :: 0 <= k < |ls| ==> IsLine(ls[k]))
    && (forall k :: 0 <= k < |ls| - 1 ==> EndsWithNewline(ls[k]))
  }

  /** `''.join(ls)`: the text a sequence of writes produces. */
  function Concat(ls: seq<string>): string {
    if |ls| == 0 then "" else ls[0] + Concat(ls[1..])
  }

  lemma {:induction false} ConcatAppend(a: seq<string>, b: seq<string>)
    ensures Concat(a + b) == Concat(a) + Concat(b)
    decreases |a|
  {
    if |a| == 0 {
      assert a + b == b;
    } else {
      assert (a + b)[1..] == a[1..] + b;
      ConcatAppend(a[1..], b);
    }
  }

  /** A newline-terminated line in front of a `readlines()` result is one. */
  lemma ConsLine(head: string, rest: seq<string>)
    requires IsLine(head) && EndsWithNewline(head) && WellSplit(rest)
    ensures WellSplit([head] + rest)
    ensures Concat([head] + rest) == head + Concat(rest)
  {
    var r := [head] + rest;
    assert r[1..] == rest;
    assert forall k :: 1 <= k < |r| ==> r[k] == rest[k - 1];
  }

  /** The lines after the first of a `readlines()` result are one. */
  lemma WellSplitTail(ls: seq<string>)
    requires |ls| > 0 && WellSplit(ls)
    ensures WellSplit(ls[1..])
  {
    assert forall k :: 0 <= k < |ls| - 1 ==> ls[1..][k] == ls[k + 1];
  }

  /** One step of `readlines()`: the first line, up to and including the first
      newline, in front of the lines of the rest. */
  lemma SplitStep(s: string, n: int, rest: seq<string>)
    requires 0 <= n < |s| && s[n] == '\n' && '\n' !in s[..n]
    requires Concat(rest) == s[n + 1..] && WellSplit(rest)
    requires |rest| > 0 ==> (EndsWithNewline(rest[|rest| - 1]) <==> EndsWithNewline(s[n + 1..]))
    requires |s[n + 1..]| == 0 ==> rest == []
    ensures var r := [s[..n + 1]] + rest;
      && Concat(r) == s
      && WellSplit(r)
      && (EndsWithNewline(r[|r| - 1]) <==> EndsWithNewline(s))
  {
    var head := s[..n + 1];
    var tail := s[n + 1..];
    assert head[..|head| - 1] == s[..n];
    assert s == head + tail;
    ConsLine(head, rest);
    if |tail| > 0 {
      assert s[|s| - 1] == tail[|tail| - 1];
    }
  }

  /** `readlines()` on a file holding the text `s`: the text cut after every
      newline, a final unterminated piece kept as the last line. */
  function ReadLines(s: string): (r: seq<string>)
    ensures Concat(r) == s
    ensures WellSplit(r)
    ensures |r| > 0 ==> (EndsWithNewline(r[|r| - 1]) <==> EndsWithNewline(s))
    decreases |s|
  {
    if |s| == 0 then []
    else
      var n := Find(s, '\n');
      if n < 0 then
        assert '\n' !in s[..|s| - 1];
        [s]
      else
        var rest := ReadLines(s[n + 1..]);
        assert |s[n + 1..]| == 0 ==> rest == [];
        SplitStep(s, n, rest);
        [s[..n + 1]] + rest
  }

  /** `ReadLines` is the inverse of `Concat` on every sequence that has the shape
      of a `readlines()` result. */
  lemma {:induction false} ReadLinesConcatInverse(ls: seq<string>)
    requires WellSplit(ls)
    ensures ReadLines(Concat(ls)) == ls
    decreases |ls|
  {
    if |ls| > 0 {
      var first := ls[0];
      var tail := ls[1..];
      var s := first + Concat(tail);
      assert Concat(ls) == s;
      WellSplitTail(ls);
      if EndsWithNewline(first) {
        FirstLineSplit(first, Concat(tail));
        ReadLinesConcatInverse(tail);
      } else {
        assert |ls| == 1 && tail == [];
        assert s == first;
        assert '\n' !in first by {
          assert first == first[..|first| - 1] + [first[|first| - 1]];
        }
      }
    }
  }

  /** `readlines()` cuts a text after the newline that ends its first line. */
  lemma FirstLineSplit(first: string, more: string)
    requires IsLine(first) && EndsWithNewline(first)
    ensures ReadLines(first + more) == [first] + ReadLines(more)
  {
    var s := first + more;
    var n := Find(s, '\n');
    assert s[|first| - 1] == '\n';
    assert s[..|first| - 1] == first[..|first| - 1];
    assert n == |first| - 1;
    assert s[..n + 1] == first;
    assert s[n + 1..] == more;
  }

  /** Two `readlines()` results, the first ending in a newline, form one. */
  lemma WellSplitAppend(la: seq<string>, lb: seq<string>)
    requires WellSplit(la) && WellSplit(lb)
    requires |la| == 0 || EndsWithNewline(la[|la| - 1])
    ensures WellSplit(la + lb)
  {
    var ls := la + lb;
    forall k | 0 <= k < |ls| ensures IsLine(ls[k]) {
      if k < |la| { assert ls[k] == la[k]; } else { assert ls[k] == lb[k - |la|]; }
    }
    forall k | 0 <= k < |ls| - 1 ensures EndsWithNewline(ls[k]) {
      if k < |la| { assert ls[k] == la[k]; } else { assert ls[k] == lb[k - |la|]; }
    }
  }

  /** Reading back a text written in two parts, the first ending in a newline,
      yields the lines of the first part followed by the lines of the second. */
  lemma {:induction false} ReadLinesAppend(a: string, b: string)
    requires |a| == 0 || EndsWithNewline(a)
    ensures ReadLines(a + b) == ReadLines(a) + ReadLines(b)
  {
    var la := ReadLines(a);
    var lb := ReadLines(b);
    if |a| == 0 {
      assert a + b == b;
    } else {
      ConcatAppend(la, lb);
      WellSplitAppend(la, lb);
      ReadLinesConcatInverse(la + lb);
    }
  }
}
