/** The JavaScript string operations the dashboard relies on: `trim`,
    `toLowerCase`/`toUpperCase`, `startsWith`, `includes` and `split` with a
    one-character separator. */
module JsText {

  /** ECMAScript's WhiteSpace and LineTerminator characters: the set that
      `String.prototype.trim` removes and `parseFloat` skips. */
  predicate IsWhite(c: char) {
    var n := c as int;
    n == 0x09 || n == 0x0A || n == 0x0B || n == 0x0C || n == 0x0D || n == 0x20
    || n == 0xA0 || n == 0x1680 || (0x2000 <= n <= 0x200A) || n == 0x2028 || n == 0x2029
    || n == 0x202F || n == 0x205F || n == 0x3000 || n == 0xFEFF
  }

  predicate AllWhite(s: string) {
    forall i :: 0 <= i < |s| ==> IsWhite(s[i])
  }

  /** The number of white-space characters at the start of `s`. */
  function LeadingWhite(s: string): (n: nat)
    ensures n <= |s| && AllWhite(s[..n])
    ensures n < |s| ==> !IsWhite(s[n])
  {
    if |s| > 0 && IsWhite(s[0]) then
      var n := 1 + LeadingWhite(s[1..]);
      assert s[..n] == [s[0]] + s[1..][..n - 1];
      n
    else 0
  }

  /** The number of white-space characters at the end of `s`. */
  function TrailingWhite(s: string): (n: nat)
    ensures n <= |s| && AllWhite(s[|s| - n..])
    ensures n < |s| ==> !IsWhite(s[|s| - n - 1])
  {
    if |s| > 0 && IsWhite(s[|s| - 1]) then
      var t := s[..|s| - 1];
      var m := TrailingWhite(t);
      TrailingStep(s, t, m);
      1 + m
    else 0
  }

  /** One more white-space character at the end extends the white tail. */
  lemma TrailingStep(s: string, t: string, m: nat)
    requires |s| > 0 && t == s[..|s| - 1] && m <= |t|
    requires IsWhite(s[|s| - 1]) && AllWhite(t[|t| - m..])
    requires m < |t| ==> !IsWhite(t[|t| - m - 1])
    ensures AllWhite(s[|s| - (m + 1)..])
    ensures m + 1 < |s| ==> !IsWhite(s[|s| - (m + 1) - 1])
  {
    var n := m + 1;
    var tail := s[|s| - n..];
    forall i | 0 <= i < |tail| ensures IsWhite(tail[i]) {
      if i < m {
        assert tail[i] == t[|t| - m..][i];
      } else {
        assert tail[i] == s[|s| - 1];
      }
    }
    if n < |s| {
      assert s[|s| - n - 1] == t[|t| - m - 1];
    }
  }

  /** `s` with its leading white space removed. */
  function TrimStart(s: string): string {
    s[LeadingWhite(s)..]
  }

  /** `s` with its trailing white space removed. */
  function TrimEnd(s: string): string {
    s[..|s| - TrailingWhite(s)]
  }

  /** `String.prototype.trim`. */
  function Trim(s: string): (r: string)
  {
    TrimEnd(TrimStart(s))
  }

  /** A string that neither starts nor ends with white space is its own
      trim. */
  lemma TrimClean(s: string)
    requires |s| > 0 ==> !IsWhite(s[0]) && !IsWhite(s[|s| - 1])
    ensures Trim(s) == s
  {
    assert LeadingWhite(s) == 0;
    assert s[0..] == s;
    assert TrailingWhite(s) == 0;
  }

  /** A white-space character in front does not survive trimming. */
  lemma TrimLeadingWhite(c: char, s: string)
    requires IsWhite(c)
    ensures Trim([c] + s) == Trim(s)
  {
    assert ([c] + s)[1..] == s;
    assert LeadingWhite([c] + s) == 1 + LeadingWhite(s);
  }

  /** Trimming removes exactly the white padding around a core that neither
      starts nor ends with white space. */
  lemma {:induction false} TrimPadded(left: string, core: string, right: string)
    requires AllWhite(left) && AllWhite(right)
    requires |core| > 0 ==> !IsWhite(core[0]) && !IsWhite(core[|core| - 1])
    ensures Trim(left + core + right) == core
  {
    if |core| == 0 {
      var all := left + core + right;
      assert AllWhite(all) by {
        forall i | 0 <= i < |all| ensures IsWhite(all[i]) {
          if i < |left| { assert all[i] == left[i]; } else { assert all[i] == right[i - |left|]; }
        }
      }
      TrimStartAllWhite(all);
    } else {
      assert left + core + right == left + (core + right);
      assert (core + right)[0] == core[0];
      TrimStartPadded(left, core + right);
      TrimEndPadded(core, right);
    }
  }

  lemma {:induction false} TrimStartAllWhite(s: string)
    requires AllWhite(s)
    ensures TrimStart(s) == ""
  {
    if |s| > 0 {
      TrimStartAllWhite(s[1..]);
    }
  }

  lemma {:induction false} TrimStartPadded(left: string, rest: string)
    requires AllWhite(left)
    requires |rest| > 0 ==> !IsWhite(rest[0])
    ensures TrimStart(left + rest) == TrimStart(rest)
  {
    if |left| > 0 {
      assert (left + rest)[1..] == left[1..] + rest;
      TrimStartPadded(left[1..], rest);
    } else {
      assert left + rest == rest;
    }
  }

  lemma {:induction false} TrimEndPadded(core: string, right: string)
    requires AllWhite(right)
    requires |core| > 0 ==> !IsWhite(core[|core| - 1])
    ensures TrimEnd(core + right) == core
  {
    if |right| == 0 {
      assert core + right == core;
    } else {
      assert (core + right)[..|core + right| - 1] == core + right[..|right| - 1];
      TrimEndPadded(core, right[..|right| - 1]);
    }
  }

  /** `toLowerCase`, restricted to the ASCII letters. */
  function LowerChar(c: char): char {
    if 'A' <= c <= 'Z' then (c as int + 32) as char else c
  }

  /** `toUpperCase`, restricted to the ASCII letters. */
  function UpperChar(c: char): char {
    if 'a' <= c <= 'z' then (c as int - 32) as char else c
  }

  function Lower(s: string): (r: string)
    ensures |r| == |s|
    ensures forall i :: 0 <= i < |s| ==> r[i] == LowerChar(s[i])
  {
    seq(|s|, i requires 0 <= i < |s| => LowerChar(s[i]))
  }

  function Upper(s: string): (r: string)
    ensures |r| == |s|
    ensures forall i :: 0 <= i < |s| ==> r[i] == UpperChar(s[i])
  {
    seq(|s|, i requires 0 <= i < |s| => UpperChar(s[i]))
  }

  /** Lower-casing forgets the original case: any two spellings of a word
      that differ only in ASCII case lower-case to the same string. */
  lemma LowerOfUpper(s: string)
    ensures Lower(Upper(s)) == Lower(s)
  {
    forall i | 0 <= i < |s|
      ensures Lower(Upper(s))[i] == Lower(s)[i]
    {
      var c := s[i];
      if 'a' <= c <= 'z' {
        assert UpperChar(c) as int == c as int - 32;
      }
    }
  }

  /** Upper-casing forgets the original case as well. */
  lemma UpperOfLower(s: string)
    ensures Upper(Lower(s)) == Upper(s)
  {
    forall i | 0 <= i < |s|
      ensures Upper(Lower(s))[i] == Upper(s)[i]
    {
      var c := s[i];
      if 'A' <= c <= 'Z' {
        assert LowerChar(c) as int == c as int + 32;
      }
    }
  }

  predicate StartsWith(s: string, prefix: string) {
    |prefix| <= |s| && s[..|prefix|] == prefix
  }

  /** `String.prototype.includes`: `needle` occurs somewhere in `s`. */
  predicate Includes(s: string, needle: string)
    decreases |s|
  {
    StartsWith(s, needle) || (|s| > 0 && Includes(s[1..], needle))
  }

  /** `s.split(sep)`: the pieces between the occurrences of `sep`. */
  function Split(s: string, sep: char): (r: seq<string>)
    ensures |r| >= 1
    ensures forall i :: 0 <= i < |r| ==> sep !in r[i]
  {
    if |s| == 0 then [""]
    else
      var rest := Split(s[1..], sep);
      if s[0] == sep then [""] + rest
      else [[s[0]] + rest[0]] + rest[1..]
  }

  /** `pieces.join(sep)`. */
  function Join(pieces: seq<string>, sep: char): string
    requires |pieces| >= 1
  {
    if |pieces| == 1 then pieces[0] else pieces[0] + [sep] + Join(pieces[1..], sep)
  }

  /** Splitting loses nothing: joining the pieces gives the input back. */
  lemma {:induction false} JoinSplit(s: string, sep: char)
    ensures Join(Split(s, sep), sep) == s
  {
    if |s| > 0 {
      JoinSplit(s[1..], sep);
      var rest := Split(s[1..], sep);
      if s[0] == sep {
        assert ([""] + rest)[1..] == rest;
      } else {
        var r := [[s[0]] + rest[0]] + rest[1..];
        if |rest| == 1 {
          assert Join(rest, sep) == rest[0];
        } else {
          assert r[1..] == rest[1..];
          assert Join(rest, sep) == rest[0] + [sep] + Join(rest[1..], sep);
        }
        assert s == [s[0]] + s[1..];
      }
    }
  }

  /** Joining pieces that do not contain the separator and splitting again
      gives the pieces back. */
  lemma {:induction false} SplitJoin(pieces: seq<string>, sep: char)
    requires |pieces| >= 1
    requires forall i :: 0 <= i < |pieces| ==> sep !in pieces[i]
    ensures Split(Join(pieces, sep), sep) == pieces
  {
    if |pieces| == 1 {
      SplitFree(pieces[0], sep);
    } else {
      var tail := pieces[1..];
      assert Split(Join(tail, sep), sep) == tail by {
        SplitJoin(tail, sep);
      }
      assert Split(Join(pieces, sep), sep) == [pieces[0]] + tail by {
        SplitPrefix(pieces[0], sep, Join(tail, sep));
      }
      assert pieces == [pieces[0]] + tail;
    }
  }

  lemma {:induction false} SplitFree(s: string, sep: char)
    requires sep !in s
    ensures Split(s, sep) == [s]
  {
    if |s| > 0 {
      assert s[1..] == s[1..];
      SplitFree(s[1..], sep);
      assert s == [s[0]] + s[1..];
    }
  }

  /** Splitting `head + sep + tail` where `head` is free of `sep`. */
  lemma {:induction false} SplitPrefix(head: string, sep: char, tail: string)
    requires sep !in head
    ensures Split(head + [sep] + tail, sep) == [head] + Split(tail, sep)
  {
    if |head| == 0 {
      assert head + [sep] + tail == [sep] + tail;
      assert ([sep] + tail)[1..] == tail;
    } else {
      var s := head + [sep] + tail;
      assert s[1..] == head[1..] + [sep] + tail;
      assert sep !in head[1..] by {
        forall i | 0 <= i < |head[1..]| ensures head[1..][i] != sep {
          assert head[1..][i] == head[i + 1];
        }
      }
      SplitPrefix(head[1..], sep, tail);
      assert head == [head[0]] + head[1..];
    }
  }

  /** `s.replace(from, to)` with one-character strings: only the first
      occurrence is replaced. */
  function ReplaceFirst(s: string, from: char, to: char): (r: string)
    ensures |r| == |s|
    ensures from !in s ==> r == s
    ensures from in s ==>
              exists k :: 0 <= k < |s| && s[k] == from && from !in s[..k] && r == s[k := to]
  {
    if |s| == 0 then s
    else if s[0] == from then
      assert s[..0] == "";
      s[0 := to]
    else
      var rest := ReplaceFirst(s[1..], from, to);
      if from in s[1..] then
        var k :| 0 <= k < |s[1..]| && s[1..][k] == from && from !in s[1..][..k] && rest == s[1..][k := to];
        assert s[..k + 1] == [s[0]] + s[1..][..k];
        assert [s[0]] + rest == s[k + 1 := to];
        [s[0]] + rest
      else
        assert s == [s[0]] + s[1..];
        [s[0]] + rest
  }
}
