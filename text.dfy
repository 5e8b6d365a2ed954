/**
 * The string operations the pipeline relies on: Python 2's `str.strip`,
 * `str.split` and `str.join` with one-character separators, and the
 * tab-separated, newline-terminated line format the transform writes and
 * the loader reads back.
 */
module Text {

  /** The characters Python 2's `str.strip()` removes: space, \t, \n, \r, \v and \f. */
  const Whitespace: set<char> := {' ', '\t', '\n', '\r', '\U{000B}', '\U{000C}'}

  /** The first position at or after `i` whose character is not in `cs` (or `|s|`). */
  function Leading(s: string, cs: set<char>, i: nat): (r: nat)
    requires i <= |s|
    ensures i <= r <= |s|
    ensures forall j :: i <= j < r ==> s[j] in cs
    ensures r < |s| ==> s[r] !in cs
    decreases |s| - i
  {
    if i < |s| && s[i] in cs then Leading(s, cs, i + 1) else i
  }

  /** The end of `s[lo..hi]` once its trailing characters from `cs` are dropped. */
  function Trailing(s: string, cs: set<char>, lo: nat, hi: nat): (r: nat)
    requires lo <= hi <= |s|
    ensures lo <= r <= hi
    ensures forall j :: r <= j < hi ==> s[j] in cs
    ensures r > lo ==> s[r - 1] !in cs
    decreases hi
  {
    if hi > lo && s[hi - 1] in cs then Trailing(s, cs, lo, hi - 1) else hi
  }

  /** No character of `cs` at either end of `s`. */
  predicate Unpadded(s: string, cs: set<char>)
  {
    s == [] || (s[0] !in cs && s[|s| - 1] !in cs)
  }

  /** Python's `s.strip(chars)`: `s` without its leading and trailing characters from `cs`. */
  function Strip(s: string, cs: set<char>): (r: string)
    ensures Unpadded(r, cs)
    ensures |r| <= |s|
  {
    var a := Leading(s, cs, 0);
    s[a..Trailing(s, cs, a, |s|)]
  }

  /** What `Strip` removes are characters of `cs`, from the two ends only. */
  lemma StripMiddle(s: string, cs: set<char>)
    ensures exists a, b :: (0 <= a <= b <= |s| && Strip(s, cs) == s[a..b] &&
      (forall i :: 0 <= i < a ==> s[i] in cs) && (forall i :: b <= i < |s| ==> s[i] in cs))
  {
    var a := Leading(s, cs, 0);
    var b := Trailing(s, cs, a, |s|);
    assert Strip(s, cs) == s[a..b];
    assert forall i :: 0 <= i < a ==> s[i] in cs;
    assert forall i :: b <= i < |s| ==> s[i] in cs;
  }

  /**
   * `Strip` is the only way to see `s` as characters of `cs`, then a part
   * with none of them at its ends, then characters of `cs` again.
   */
  lemma StripUnique(s: string, cs: set<char>, a: nat, b: nat)
    requires a <= b <= |s| && Unpadded(s[a..b], cs)
    requires forall i :: 0 <= i < a ==> s[i] in cs
    requires forall i :: b <= i < |s| ==> s[i] in cs
    ensures Strip(s, cs) == s[a..b]
  {
    var lead := Leading(s, cs, 0);
    if a == b {
      assert forall i :: 0 <= i < |s| ==> s[i] in cs;
      assert lead == |s|;
    } else {
      assert s[a] == s[a..b][0] && s[b - 1] == s[a..b][b - a - 1];
      assert s[a] !in cs && s[b - 1] !in cs;
      assert lead == a;
      assert Trailing(s, cs, a, |s|) == b;
    }
  }

  /** Stripping a string that has nothing to strip leaves it as it is. */
  lemma StripUnpadded(s: string, cs: set<char>)
    requires Unpadded(s, cs)
    ensures Strip(s, cs) == s
  {
    StripUnique(s, cs, 0, |s|);
  }

  /** Python's `sep.join(parts)` for a one-character separator. */
  function Join(parts: seq<string>, sep: char): string
  {
    if parts == [] then []
    else if |parts| == 1 then parts[0]
    else parts[0] + [sep] + Join(parts[1..], sep)
  }

  /** Python's `s.split(sep)` for a one-character separator: always at least one part. */
  function Split(s: string, sep: char): (r: seq<string>)
    ensures |r| >= 1
    ensures forall i :: 0 <= i < |r| ==> sep !in r[i]
  {
    if s == [] then [[]]
    else
      var rest := Split(s[1..], sep);
      if s[0] == sep then [[]] + rest
      else [[s[0]] + rest[0]] + rest[1..]
  }

  /** Splitting then joining gives back the string. */
  lemma {:induction false} JoinSplit(s: string, sep: char)
    ensures Join(Split(s, sep), sep) == s
  {
    if s != [] {
      JoinSplit(s[1..], sep);
      var rest := Split(s[1..], sep);
      if s[0] == sep {
        assert Join([[]] + rest, sep) == [sep] + Join(rest, sep);
      } else {
        var r := [[s[0]] + rest[0]] + rest[1..];
        if |rest| == 1 {
          assert Join(r, sep) == [s[0]] + rest[0];
        } else {
          assert r[1..] == rest[1..];
          assert Join(r, sep) == [s[0]] + rest[0] + [sep] + Join(rest[1..], sep);
        }
      }
    }
  }

  /** Joining then splitting gives back the parts when no part holds the separator. */
  lemma {:induction false} SplitJoin(parts: seq<string>, sep: char)
    requires |parts| >= 1
    requires forall i :: 0 <= i < |parts| ==> sep !in parts[i]
    ensures Split(Join(parts, sep), sep) == parts
  {
    if |parts| == 1 {
      SplitWhole(parts[0], sep);
    } else {
      SplitJoin(parts[1..], sep);
      SplitFirst(parts[0], sep, Join(parts[1..], sep));
    }
  }

  /** A string without the separator splits to itself. */
  lemma {:induction false} SplitWhole(p: string, sep: char)
    requires sep !in p
    ensures Split(p, sep) == [p]
  {
    if p != [] {
      SplitWhole(p[1..], sep);
      assert [p[0]] + p[1..] == p;
    }
  }

  /** A part without the separator, then the separator: the part is split off first. */
  lemma {:induction false} SplitFirst(p: string, sep: char, t: string)
    requires sep !in p
    ensures Split(p + [sep] + t, sep) == [p] + Split(t, sep)
  {
    if p != [] {
      SplitFirst(p[1..], sep, t);
      assert (p + [sep] + t)[1..] == p[1..] + [sep] + t;
      assert [p[0]] + p[1..] == p;
    } else {
      assert ([] + [sep] + t)[1..] == t;
    }
  }

  /** A character of a join is the separator or a character of one of the parts. */
  lemma {:induction false} JoinChars(parts: seq<string>, sep: char, c: char)
    requires c in Join(parts, sep)
    ensures c == sep || exists i :: 0 <= i < |parts| && c in parts[i]
  {
    if |parts| > 1 {
      var j := Join(parts[1..], sep);
      if c !in parts[0] && c != sep {
        JoinChars(parts[1..], sep, c);
        var i :| 0 <= i < |parts[1..]| && c in parts[1..][i];
        assert c in parts[i + 1];
      }
    }
  }

  /** The line the transform writes for one entity: tab-joined fields ending in a newline. */
  function TabLine(fields: seq<string>): string
  {
    Join(fields, '\t') + "\n"
  }

  /** The row the loader reads back from a line: `line.strip("\n").split("\t")`. */
  function SplitRow(line: string): (r: seq<string>)
    ensures |r| >= 1
    ensures forall i :: 0 <= i < |r| ==> '\t' !in r[i]
  {
    Split(Strip(line, {'\n'}), '\t')
  }

  /** A field that survives the tab format: no tab and no newline in it. */
  predicate TabSafe(field: string)
  {
    '\t' !in field && '\n' !in field
  }

  /** Reading back a written line gives exactly the written fields, in order. */
  lemma TabLineRoundTrip(fields: seq<string>)
    requires |fields| >= 1
    requires forall i :: 0 <= i < |fields| ==> TabSafe(fields[i])
    ensures SplitRow(TabLine(fields)) == fields
  {
    var j := Join(fields, '\t');
    if '\n' in j {
      JoinChars(fields, '\t', '\n');
    }
    StripNewline(j);
    SplitJoin(fields, '\t');
  }

  /** Stripping newlines from a newline-free text plus its terminating newline gives the text back. */
  lemma StripNewline(j: string)
    requires '\n' !in j
    ensures Strip(j + "\n", {'\n'}) == j
  {
    var line := j + "\n";
    if j != [] {
      assert j[0] in j && j[|j| - 1] in j;
    }
    assert line[0..|j|] == j;
    StripUnique(line, {'\n'}, 0, |j|);
  }
}
