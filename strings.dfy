/** The String.prototype operations the components use, over strings as
    sequences of characters: trim, includes, split('\n'),
    replace(/\n/g, ' ') and the relational operator <. */
module Strings {

  /** A line terminator: what the regular-expression `.` does not match. */
  predicate IsLineTerminator(c: char)
  {
    c == '\n' || c == '\r' || c == '\U{2028}' || c == '\U{2029}'
  }

  /** JavaScript white space and line terminators: the class `\s`, and what
      trim removes. */
  predicate IsSpace(c: char)
  {
    c == '\t' || c == '\U{000B}' || c == '\U{000C}' || c == ' ' || c == '\U{00A0}' ||
    c == '\U{1680}' || ('\U{2000}' <= c <= '\U{200A}') || c == '\U{202F}' || c == '\U{205F}' ||
    c == '\U{3000}' || c == '\U{FEFF}' || IsLineTerminator(c)
  }

  /** Every character of s is white space (vacuously so for ""). */
  predicate IsBlank(s: string)
  {
    forall i :: 0 <= i < |s| ==> IsSpace(s[i])
  }

  /** The first position at or after i that does not hold white space. */
  function SkipSpaces(s: string, i: nat): (r: nat)
    requires i <= |s|
    ensures i <= r <= |s|
    ensures forall m :: i <= m < r ==> IsSpace(s[m])
    ensures r < |s| ==> !IsSpace(s[r])
    decreases |s| - i
  {
    if i < |s| && IsSpace(s[i]) then SkipSpaces(s, i + 1) else i
  }

  /** The position just past the last character before j that is not
      white space. */
  function BackSpaces(s: string, j: nat): (r: nat)
    requires j <= |s|
    ensures r <= j
    ensures forall m :: r <= m < j ==> IsSpace(s[m])
    ensures r > 0 ==> !IsSpace(s[r - 1])
  {
    if j > 0 && IsSpace(s[j - 1]) then BackSpaces(s, j - 1) else j
  }

  /** s with its leading white space removed. */
  function TrimStart(s: string): (r: string)
    ensures |r| <= |s| && r == s[|s| - |r|..]
    ensures IsBlank(s[..|s| - |r|])
    ensures r != [] ==> !IsSpace(r[0])
  {
    var k := SkipSpaces(s, 0);
    assert forall m :: 0 <= m < k ==> s[..k][m] == s[m];
    s[k..]
  }

  /** s with its trailing white space removed. */
  function TrimEnd(s: string): (r: string)
    ensures |r| <= |s| && r == s[..|r|]
    ensures IsBlank(s[|r|..])
    ensures r != [] ==> !IsSpace(r[|r| - 1])
  {
    var k := BackSpaces(s, |s|);
    assert forall m :: 0 <= m < |s| - k ==> s[k..][m] == s[k + m];
    s[..k]
  }

  /** String.prototype.trim. */
  function Trim(s: string): (r: string)
  {
    TrimEnd(TrimStart(s))
  }

  /** trim() yields the empty string exactly when s is all white space;
      so `s.trim()` is truthy exactly when s has a non-space character. */
  lemma TrimEmptyIffBlank(s: string)
    ensures Trim(s) == "" <==> IsBlank(s)
  {
    var t := TrimStart(s);
    if Trim(s) == "" {
      assert IsBlank(t) by { assert t[0..] == t; }
      assert t == [];
      assert s[..|s|] == s;
    } else {
      var r := Trim(s);
      assert t != [] && r[0] == t[0];
      assert t[0] == s[|s| - |t|];
    }
  }

  /** needle occurs in s at position i. */
  predicate OccursAt(s: string, i: int, needle: string)
  {
    0 <= i && i + |needle| <= |s| && s[i..i + |needle|] == needle
  }

  /** String.prototype.includes. */
  function Contains(s: string, needle: string): (r: bool)
    ensures r <==> exists i :: OccursAt(s, i, needle)
  {
    if |needle| <= |s| && s[..|needle|] == needle then
      assert OccursAt(s, 0, needle);
      true
    else if s == [] then
      assert forall i :: !OccursAt(s, i, needle);
      false
    else
      var r := Contains(s[1..], needle);
      assert r ==> exists i :: OccursAt(s, i, needle) by {
        if r {
          var i :| OccursAt(s[1..], i, needle);
          assert s[1..][i..i + |needle|] == needle;
          assert forall m :: 0 <= m < |needle| ==> needle[m] == s[i + 1 + m];
          assert OccursAt(s, i + 1, needle);
        }
      }
      assert (exists i :: OccursAt(s, i, needle)) ==> r by {
        if exists i :: OccursAt(s, i, needle) {
          var i :| OccursAt(s, i, needle);
          assert i != 0;
          assert s[1..][i - 1..i - 1 + |needle|] == s[i..i + |needle|];
          assert OccursAt(s[1..], i - 1, needle);
        }
      }
      r
  }

  /** Every string includes the empty string. */
  lemma ContainsEmpty(s: string)
    ensures Contains(s, "")
  {
    assert OccursAt(s, 0, "");
  }

  /** The search both list views run: the lower-cased title or the
      lower-cased description includes the lower-cased term. */
  predicate MatchesTerm(lower: string -> string, title: string, description: string, term: string)
  {
    Contains(lower(title), lower(term)) || Contains(lower(description), lower(term))
  }

  /** When lower-casing keeps "" empty, the empty term matches everything. */
  lemma EmptyTermMatches(lower: string -> string, title: string, description: string)
    requires lower("") == ""
    ensures MatchesTerm(lower, title, description, "")
  {
    ContainsEmpty(lower(title));
  }

  /** The relational operator < on strings, as lexicographic order of the
      code points, a proper prefix coming first. JavaScript compares UTF-16
      code units instead; the two orders agree unless a character above
      U+FFFF meets one in U+E000..U+FFFF, which "YYYY-MM-DD" dates never
      contain. */
  function Less(a: string, b: string): bool
  {
    if a == [] then b != []
    else if b == [] then false
    else if a[0] != b[0] then a[0] < b[0]
    else Less(a[1..], b[1..])
  }

  /** < on strings is a strict total order. */
  lemma {:induction false} LessIrreflexive(a: string)
    ensures !Less(a, a)
  {
    if a != [] {
      LessIrreflexive(a[1..]);
    }
  }

  lemma {:induction false} LessTransitive(a: string, b: string, c: string)
    requires Less(a, b) && Less(b, c)
    ensures Less(a, c)
  {
    if a != [] && b != [] && c != [] && a[0] == b[0] == c[0] {
      LessTransitive(a[1..], b[1..], c[1..]);
    }
  }

  lemma {:induction false} LessTotal(a: string, b: string)
    requires a != b
    ensures Less(a, b) || Less(b, a)
  {
    if a != [] && b != [] && a[0] == b[0] {
      assert a == [a[0]] + a[1..] && b == [b[0]] + b[1..];
      LessTotal(a[1..], b[1..]);
    }
  }

  /** String.prototype.split(sep) for a one-character separator. */
  function Split(s: string, sep: char): (r: seq<string>)
    ensures |r| >= 1
    ensures forall i :: 0 <= i < |r| ==> sep !in r[i]
  {
    if s == [] then [""]
    else
      var rest := Split(s[1..], sep);
      if s[0] == sep then [""] + rest
      else [[s[0]] + rest[0]] + rest[1..]
  }

  /** Array.prototype.join(sep). */
  function Join(lines: seq<string>, sep: char): string
  {
    if lines == [] then ""
    else if |lines| == 1 then lines[0]
    else lines[0] + [sep] + Join(lines[1..], sep)
  }

  /** Splitting loses nothing: joining the pieces gives the string back. */
  lemma {:induction false} JoinSplit(s: string, sep: char)
    ensures Join(Split(s, sep), sep) == s
  {
    if s != [] {
      var rest := Split(s[1..], sep);
      JoinSplit(s[1..], sep);
      if s[0] == sep {
        assert Split(s, sep) == [""] + rest;
        assert ([""] + rest)[1..] == rest;
        assert Join(Split(s, sep), sep) == "" + [sep] + Join(rest, sep);
      } else {
        var r := Split(s, sep);
        assert r == [[s[0]] + rest[0]] + rest[1..];
        if |rest| == 1 {
          assert Join(r, sep) == [s[0]] + rest[0];
        } else {
          assert r[1..] == rest[1..];
          assert Join(rest, sep) == rest[0] + [sep] + Join(rest[1..], sep);
          assert Join(r, sep) == ([s[0]] + rest[0]) + [sep] + Join(rest[1..], sep);
        }
        assert s == [s[0]] + s[1..];
      }
    }
  }

  /** And the other direction: separator-free lines come back from
      splitting their join. */
  lemma {:induction false} SplitJoin(lines: seq<string>, sep: char)
    requires |lines| >= 1
    requires forall i :: 0 <= i < |lines| ==> sep !in lines[i]
    ensures Split(Join(lines, sep), sep) == lines
  {
    if |lines| == 1 {
      SplitNoSeparator(lines[0], sep);
    } else {
      SplitJoin(lines[1..], sep);
      SplitPrefix(lines[0], Join(lines[1..], sep), sep);
      assert lines == [lines[0]] + lines[1..];
    }
  }

  lemma {:induction false} SplitNoSeparator(s: string, sep: char)
    requires sep !in s
    ensures Split(s, sep) == [s]
  {
    if s != [] {
      SplitNoSeparator(s[1..], sep);
      assert s == [s[0]] + s[1..];
    }
  }

  lemma {:induction false} SplitPrefix(a: string, b: string, sep: char)
    requires sep !in a
    ensures Split(a + [sep] + b, sep) == [a] + Split(b, sep)
  {
    if a == [] {
      assert a + [sep] + b == [sep] + b;
      assert ([sep] + b)[1..] == b;
    } else {
      var s := a + [sep] + b;
      assert s[0] == a[0] && s[1..] == a[1..] + [sep] + b;
      SplitPrefix(a[1..], b, sep);
      assert a == [a[0]] + a[1..];
    }
  }

  /** s with every occurrence of `from` replaced by `to`:
      String.prototype.replace with a global one-character pattern. */
  function ReplaceAll(s: string, from: char, to: char): (r: string)
    ensures |r| == |s|
    ensures forall i :: 0 <= i < |s| ==> r[i] == if s[i] == from then to else s[i]
  {
    if s == [] then []
    else [if s[0] == from then to else s[0]] + ReplaceAll(s[1..], from, to)
  }
}
