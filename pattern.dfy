/** The regular expression behind the inline markup,
        (\*\*(.*?)\*\*)|(\*(.*?)\*)|(\[(.*?)\]\((https?:\/\/[^\s)]+)\))
    as a function of the text and a start position: which alternative
    matches there and what its groups capture, with the backtracking
    matcher's choices made explicit (lazy groups as short as possible,
    `.` stopping at line terminators, the URL run as long as possible). */
module Pattern {
  import opened Types
  import opened Strings

  /** What one match captured, by alternative. */
  datatype Capture = BoldMatch(inner: string) | ItalicMatch(inner: string) | LinkMatch(text: string, url: string)

  /** The text a match spans. */
  function Source(c: Capture): (r: string)
    ensures |r| >= 2
  {
    match c
    case BoldMatch(x) => "**" + x + "**"
    case ItalicMatch(x) => "*" + x + "*"
    case LinkMatch(t, u) => "[" + t + "](" + u + ")"
  }

  /** The length of the text a match spans: match[0].length. */
  function Width(c: Capture): nat
  {
    match c
    case BoldMatch(x) => |x| + 4
    case ItalicMatch(x) => |x| + 2
    case LinkMatch(t, u) => |t| + |u| + 4
  }

  lemma WidthIsLength(c: Capture)
    ensures Width(c) == |Source(c)|
  {
  }

  /** The end of the line position i is on: the first line terminator at
      or after i, or the end of the text. `.` matches exactly the
      characters of s[i..LineEnd(s, i)]. */
  function LineEnd(s: string, i: nat): (r: nat)
    requires i <= |s|
    ensures i <= r <= |s|
    ensures forall m :: i <= m < r ==> !IsLineTerminator(s[m])
    ensures r < |s| ==> IsLineTerminator(s[r])
    decreases |s| - i
  {
    if i < |s| && !IsLineTerminator(s[i]) then LineEnd(s, i + 1) else i
  }

  /** The first position in [i, end] where `at` holds: how a backtracking
      matcher settles a lazy group or the start of the next match. */
  function FirstFrom(at: nat -> bool, i: nat, end: nat): (r: Option<nat>)
    ensures r.Some? ==> i <= r.value <= end && at(r.value) && forall j :: i <= j < r.value ==> !at(j)
    ensures r.None? ==> forall j :: i <= j <= end ==> !at(j)
    decreases end + 1 - i
  {
    if i > end then None else if at(i) then Some(i) else FirstFrom(at, i + 1, end)
  }

  /** The lazy `(.*?)` followed by `delim`, from position i: the first
      position on the same line at which delim occurs. */
  function LazyClose(s: string, i: nat, delim: string): (r: Option<nat>)
    requires i <= |s|
    ensures r.Some? ==> i <= r.value <= LineEnd(s, i) && OccursAt(s, r.value, delim) &&
                        forall j :: i <= j < r.value ==> !OccursAt(s, j, delim)
    ensures r.None? ==> forall j :: i <= j <= LineEnd(s, i) ==> !OccursAt(s, j, delim)
  {
    var at := (j: nat) => OccursAt(s, j, delim);
    assert forall j: nat :: at(j) == OccursAt(s, j, delim);
    FirstFrom(at, i, LineEnd(s, i))
  }

  /** A character of the class [^\s)]. */
  predicate IsUrlChar(c: char)
  {
    !IsSpace(c) && c != ')'
  }

  /** The greedy run [^\s)]* from position i. */
  function UrlRun(s: string, i: nat): (n: nat)
    requires i <= |s|
    ensures i + n <= |s|
    ensures forall m :: i <= m < i + n ==> IsUrlChar(s[m])
    ensures i + n == |s| || !IsUrlChar(s[i + n])
    decreases |s| - i
  {
    if i < |s| && IsUrlChar(s[i]) then 1 + UrlRun(s, i + 1) else 0
  }

  /** A URL the link alternative accepts: http:// or https:// followed by
      at least one character, none of them white space or ')'. */
  predicate IsLinkUrl(u: string)
  {
    (|u| > 7 && u[..7] == "http://" && AllUrlChars(u[7..])) ||
    (|u| > 8 && u[..8] == "https://" && AllUrlChars(u[8..]))
  }

  predicate AllUrlChars(t: string)
  {
    forall m :: 0 <= m < |t| ==> IsUrlChar(t[m])
  }

  /** x contains no line terminator. */
  predicate NoBreakIn(x: string)
  {
    forall m :: 0 <= m < |x| ==> !IsLineTerminator(x[m])
  }

  /** An occurrence is a character-by-character agreement. */
  lemma OccursAtChars(s: string, i: int, needle: string)
    requires 0 <= i && i + |needle| <= |s|
    ensures OccursAt(s, i, needle) <==> forall m :: 0 <= m < |needle| ==> s[i + m] == needle[m]
  {
    if forall m :: 0 <= m < |needle| ==> s[i + m] == needle[m] {
      assert s[i..i + |needle|] == needle;
    }
  }

  /** The length of the scheme `https?:\/\/` at q: 8 for https://, 7 for
      http://, 0 for neither. */
  function Scheme(s: string, q: nat): nat
  {
    if OccursAt(s, q, "https://") then 8 else if OccursAt(s, q, "http://") then 7 else 0
  }

  /** The URL group `(https?:\/\/[^\s)]+)` at q, when the closing ')'
      follows it: the scheme, then the greedy run of URL characters. */
  function UrlAt(s: string, q: nat): (r: Option<string>)
    requires q <= |s|
    ensures r.Some? ==> IsLinkUrl(r.value) && q + |r.value| < |s| &&
                        s[q..q + |r.value|] == r.value && s[q + |r.value|] == ')'
  {
    var k := Scheme(s, q);
    if k == 0 then None
    else
      var n := UrlRun(s, q + k);
      if n >= 1 && q + k + n < |s| && s[q + k + n] == ')' then
        var url := s[q..q + k + n];
        assert url[..k] == s[q..q + k];
        assert AllUrlChars(url[k..]) by {
          forall m | 0 <= m < n ensures IsUrlChar(url[k..][m]) { assert url[k..][m] == s[q + k + m]; }
        }
        Some(url)
      else None
  }

  /** The URL matcher misses no URL and picks the only one: the greedy run
      cannot contain ')', so only the longest run can be followed by ')'. */
  lemma UrlAtComplete(s: string, q: nat, url: string)
    requires q + |url| < |s| && IsLinkUrl(url)
    requires s[q..q + |url|] == url && s[q + |url|] == ')'
    ensures UrlAt(s, q) == Some(url)
  {
    var k := SchemeWidth(s, q, url);
    UrlCharsAt(s, q, url, k);
    RunLength(s, q + k, q + |url|);
    UrlAtIs(s, q, k, |url| - k);
  }

  /** The URL characters after the scheme, read off the text. */
  lemma UrlCharsAt(s: string, q: nat, url: string, k: nat)
    requires q + |url| <= |s| && s[q..q + |url|] == url
    requires k <= |url| && AllUrlChars(url[k..])
    ensures forall m :: q + k <= m < q + |url| ==> IsUrlChar(s[m])
  {
    forall m | q + k <= m < q + |url| ensures IsUrlChar(s[m]) {
      assert s[m] == url[m - q];
      assert url[m - q] == url[k..][m - q - k];
    }
  }

  /** UrlAt once the scheme and the run are known. */
  lemma UrlAtIs(s: string, q: nat, k: nat, n: nat)
    requires q + k + n < |s| && k == Scheme(s, q) && k > 0
    requires n >= 1 && UrlRun(s, q + k) == n && s[q + k + n] == ')'
    ensures UrlAt(s, q) == Some(s[q..q + k + n])
  {
  }

  /** The tail `\]\((https?:\/\/[^\s)]+)\)` of the link alternative at
      position i: the URL and the position just past the closing ')'. */
  function LinkTail(s: string, i: nat): (r: Option<(string, nat)>)
    requires i <= |s|
    ensures r.Some? ==> IsLinkUrl(r.value.0) && r.value.1 == i + |r.value.0| + 3 &&
                        OccursAt(s, i, "](" + r.value.0 + ")")
  {
    if !OccursAt(s, i, "](") then None
    else match UrlAt(s, i + 2)
      case None => None
      case Some(url) =>
        TailOccurs(s, i, url);
        Some((url, i + |url| + 3))
  }

  /** "](", the URL and ")" in a row make one occurrence of the tail. */
  lemma TailOccurs(s: string, i: nat, url: string)
    requires OccursAt(s, i, "](") && i + 2 + |url| < |s|
    requires s[i + 2..i + 2 + |url|] == url && s[i + 2 + |url|] == ')'
    ensures OccursAt(s, i, "](" + url + ")")
  {
    assert s[i..i + |url| + 3] == s[i..i + 2] + s[i + 2..i + 2 + |url|] + [s[i + 2 + |url|]];
  }

  /** So the tail is found wherever it is. */
  lemma LinkTailComplete(s: string, i: nat, url: string)
    requires i <= |s|
    requires IsLinkUrl(url) && OccursAt(s, i, "](" + url + ")")
    ensures LinkTail(s, i) == Some((url, i + |url| + 3))
  {
    TailParts(s, i, url);
    UrlAtComplete(s, i + 2, url);
  }

  /** The parts of a link tail at i: "](", the URL, ")". */
  lemma TailParts(s: string, i: nat, url: string)
    requires OccursAt(s, i, "](" + url + ")")
    ensures OccursAt(s, i, "](") && s[i + 2..i + 2 + |url|] == url
    ensures i + 2 + |url| < |s| && s[i + 2 + |url|] == ')'
  {
    var w := "](" + url + ")";
    var n := |w|;
    SliceOfSlice(s, i, i + n, 0, 2);
    SliceOfSlice(s, i, i + n, 2, 2 + |url|);
    assert w[..2] == "](" && w[2..2 + |url|] == url && w[2 + |url|] == ')';
    assert s[i + 2 + |url|] == s[i..i + n][2 + |url|];
  }

  /** The scheme the tail matcher recognises in front of a URL the
      pattern accepts: 8 characters for https://, 7 for http://. */
  lemma SchemeWidth(s: string, q: nat, url: string) returns (k: nat)
    requires q + |url| <= |s| && s[q..q + |url|] == url && IsLinkUrl(url)
    ensures k == Scheme(s, q)
    ensures (k == 7 || k == 8) && k < |url| && url[..k] == s[q..q + k] && AllUrlChars(url[k..])
  {
    if |url| > 8 && url[..8] == "https://" {
      k := 8;
      SliceOfSlice(s, q, q + |url|, 0, 8);
    } else {
      k := 7;
      SliceOfSlice(s, q, q + |url|, 0, 7);
      assert url[4] == url[..7][4] == ':';
      if q + 8 <= |s| {
        OccursAtChars(s, q, "https://");
        assert s[q + 4] == url[4];
        assert "https://"[4] == 's';
      }
    }
  }

  /** A run of URL characters ended by ')' is exactly what the greedy
      run takes. */
  lemma {:induction false} RunLength(s: string, a: nat, b: nat)
    requires a <= b < |s| && s[b] == ')'
    requires forall m :: a <= m < b ==> IsUrlChar(s[m])
    ensures UrlRun(s, a) == b - a
    decreases b - a
  {
    if a < b {
      RunLength(s, a + 1, b);
    }
  }

  /** The lazy text `(.*?)` of the link alternative from position i: the
      first position on the same line where the tail matches. */
  function LinkFrom(s: string, i: nat): (r: Option<nat>)
    requires i <= |s|
    ensures r.Some? ==> i <= r.value <= LineEnd(s, i) && LinkTail(s, r.value).Some? &&
                        forall j :: i <= j < r.value ==> LinkTail(s, j).None?
    ensures r.None? ==> forall j :: i <= j <= LineEnd(s, i) ==> LinkTail(s, j).None?
  {
    var at := (j: nat) => j <= |s| && LinkTail(s, j).Some?;
    assert forall j: nat :: j <= |s| ==> at(j) == LinkTail(s, j).Some?;
    FirstFrom(at, i, LineEnd(s, i))
  }

  /** A slice of a slice is a slice. */
  lemma SliceOfSlice(s: string, a: nat, b: nat, c: nat, d: nat)
    requires a <= b <= |s| && c <= d <= b - a
    ensures s[a..b][c..d] == s[a + c..a + d]
  {
    forall k | 0 <= k < d - c ensures s[a..b][c..d][k] == s[a + c..a + d][k] {
      assert s[a..b][c..d][k] == s[a..b][c + k] == s[a + c + k];
    }
  }

  /** An occurrence inside a slice is an occurrence in the whole text. */
  lemma OccursInSlice(s: string, a: nat, b: nat, m: nat, needle: string)
    requires a <= b <= |s| && m + |needle| <= b - a
    ensures OccursAt(s[a..b], m, needle) <==> OccursAt(s, a + m, needle)
  {
    SliceOfSlice(s, a, b, m, m + |needle|);
  }

  /** What lies before the end of the line has no line terminator, and
      a stretch without one ends no later than the line. */
  lemma NoBreakBefore(s: string, i: nat, j: nat)
    requires i <= |s| && i <= j <= LineEnd(s, i)
    ensures NoBreakIn(s[i..j])
  {
    forall m | 0 <= m < j - i ensures !IsLineTerminator(s[i..j][m]) {
      assert s[i..j][m] == s[i + m];
    }
  }

  lemma NoBreakBound(s: string, i: nat, j: nat)
    requires i <= j <= |s| && NoBreakIn(s[i..j])
    ensures j <= LineEnd(s, i)
  {
    forall m | i <= m < j ensures !IsLineTerminator(s[m]) {
      assert s[m] == s[i..j][m - i];
    }
  }

  /** The text between "**" at p and the closing "**" at j that
      LazyClose chose. */
  lemma BoldShape(s: string, p: nat, j: nat, x: string)
    requires OccursAt(s, p, "**") && p + 2 <= j <= LineEnd(s, p + 2) && OccursAt(s, j, "**")
    requires forall k :: p + 2 <= k < j ==> !OccursAt(s, k, "**")
    requires x == s[p + 2..j]
    ensures OccursAt(s, p, "**" + x + "**") && NoBreakIn(x)
    ensures forall m :: 0 <= m < |x| ==> !OccursAt(x + "*", m, "**")
  {
    assert s[p..j + 2] == s[p..p + 2] + x + s[j..j + 2];
    NoBreakBefore(s, p + 2, j);
    assert s[j] == '*' by { assert s[j] == s[j..j + 2][0]; }
    assert x + "*" == s[p + 2..j + 1];
    forall m | 0 <= m < |x| ensures !OccursAt(x + "*", m, "**") {
      OccursInSlice(s, p + 2, j + 1, m, "**");
    }
  }

  /** The bold alternative `\*\*(.*?)\*\*` at p: the text, on one line,
      between "**" at p and the first "**" after it. */
  function BoldAt(s: string, p: nat): (r: Option<string>)
    requires p <= |s|
    ensures r.Some? ==> OccursAt(s, p, "**" + r.value + "**") && NoBreakIn(r.value) &&
                        forall m :: 0 <= m < |r.value| ==> !OccursAt(r.value + "*", m, "**")
    ensures r.None? ==> !OccursAt(s, p, "**") ||
                        forall j :: p + 2 <= j <= LineEnd(s, p + 2) ==> !OccursAt(s, j, "**")
  {
    if !OccursAt(s, p, "**") then None
    else match LazyClose(s, p + 2, "**")
      case None => None
      case Some(j) =>
        BoldShape(s, p, j, s[p + 2..j]);
        Some(s[p + 2..j])
  }

  /** A span "**" + x + "**" at p, split into its three parts. */
  lemma Delimited(s: string, p: nat, d: string, x: string)
    requires OccursAt(s, p, d + x + d)
    ensures OccursAt(s, p, d) && s[p + |d|..p + |d| + |x|] == x && OccursAt(s, p + |d| + |x|, d)
  {
    var n := |d| + |x| + |d|;
    var w := s[p..p + n];
    assert w == d + x + d;
    SliceOfSlice(s, p, p + n, 0, |d|);
    SliceOfSlice(s, p, p + n, |d|, |d| + |x|);
    SliceOfSlice(s, p, p + n, |d| + |x|, n);
    assert w[..|d|] == d && w[|d|..|d| + |x|] == x && w[|d| + |x|..n] == d;
  }

  /** Bold text is recognised whenever it is there: a bold span on one
      line with no earlier closing "**" is what BoldAt finds. */
  lemma BoldAtComplete(s: string, p: nat, x: string)
    requires p <= |s|
    requires OccursAt(s, p, "**" + x + "**") && NoBreakIn(x)
    requires forall m :: 0 <= m < |x| ==> !OccursAt(x + "*", m, "**")
    ensures BoldAt(s, p) == Some(x)
  {
    var j := p + 2 + |x|;
    Delimited(s, p, "**", x);
    NoBreakBound(s, p + 2, j);
    assert s[j] == '*' by { assert s[j] == s[j..j + 2][0]; }
    assert x + "*" == s[p + 2..j + 1];
    forall k | p + 2 <= k < j ensures !OccursAt(s, k, "**") {
      OccursInSlice(s, p + 2, j + 1, k - p - 2, "**");
    }
    assert LazyClose(s, p + 2, "**") == Some(j);
  }

  /** The text between '*' at p and the closing '*' at j. */
  lemma ItalicShape(s: string, p: nat, j: nat, x: string)
    requires OccursAt(s, p, "*") && p + 1 <= j <= LineEnd(s, p + 1) && OccursAt(s, j, "*")
    requires forall k :: p + 1 <= k < j ==> !OccursAt(s, k, "*")
    requires x == s[p + 1..j]
    ensures OccursAt(s, p, "*" + x + "*") && NoBreakIn(x) && '*' !in x
  {
    assert s[p..j + 1] == s[p..p + 1] + x + s[j..j + 1];
    NoBreakBefore(s, p + 1, j);
    forall m | 0 <= m < |x| ensures x[m] != '*' {
      OccursInSlice(s, p + 1, j, m, "*");
      assert x[m..m + 1] == [x[m]];
    }
  }

  /** The italic alternative `\*(.*?)\*` at p: the text, on one line and
      without '*', between '*' at p and the next '*'. */
  function ItalicAt(s: string, p: nat): (r: Option<string>)
    requires p <= |s|
    ensures r.Some? ==> OccursAt(s, p, "*" + r.value + "*") && NoBreakIn(r.value) && '*' !in r.value
    ensures r.None? ==> !OccursAt(s, p, "*") ||
                        forall j :: p + 1 <= j <= LineEnd(s, p + 1) ==> !OccursAt(s, j, "*")
  {
    if !OccursAt(s, p, "*") then None
    else match LazyClose(s, p + 1, "*")
      case None => None
      case Some(j) =>
        ItalicShape(s, p, j, s[p + 1..j]);
        Some(s[p + 1..j])
  }

  /** Italic text is recognised whenever it is there. */
  lemma ItalicAtComplete(s: string, p: nat, x: string)
    requires p <= |s|
    requires OccursAt(s, p, "*" + x + "*") && NoBreakIn(x) && '*' !in x
    ensures ItalicAt(s, p) == Some(x)
  {
    var j := p + 1 + |x|;
    Delimited(s, p, "*", x);
    NoBreakBound(s, p + 1, j);
    forall k | p + 1 <= k < j ensures !OccursAt(s, k, "*") {
      OccursInSlice(s, p + 1, j, k - p - 1, "*");
      assert x[k - p - 1..k - p] == [x[k - p - 1]];
    }
    assert LazyClose(s, p + 1, "*") == Some(j);
  }

  /** The text of a link runs from after '[' at p up to the tail at j. */
  lemma LinkShape(s: string, p: nat, j: nat, url: string)
    requires OccursAt(s, p, "[") && p + 1 <= j <= LineEnd(s, p + 1)
    requires OccursAt(s, j, "](" + url + ")")
    ensures OccursAt(s, p, "[" + s[p + 1..j] + "](" + url + ")") && NoBreakIn(s[p + 1..j])
  {
    var end := j + |url| + 3;
    assert s[p..end] == s[p..p + 1] + s[p + 1..j] + s[j..end];
    NoBreakBefore(s, p + 1, j);
  }

  /** The link alternative `\[(.*?)\]\((https?:\/\/[^\s)]+)\)` at p: the
      shortest text on one line after '[' that the URL tail follows. */
  function LinkAt(s: string, p: nat): (r: Option<(string, string)>)
    requires p <= |s|
    ensures r.Some? ==> OccursAt(s, p, "[" + r.value.0 + "](" + r.value.1 + ")") &&
                        NoBreakIn(r.value.0) && IsLinkUrl(r.value.1) &&
                        forall j :: p + 1 <= j < p + 1 + |r.value.0| ==> LinkTail(s, j).None?
    ensures r.None? ==> !OccursAt(s, p, "[") ||
                        forall j :: p + 1 <= j <= LineEnd(s, p + 1) ==> LinkTail(s, j).None?
  {
    if !OccursAt(s, p, "[") then None
    else match LinkFrom(s, p + 1)
      case None => None
      case Some(j) =>
        var url := LinkTail(s, j).value.0;
        LinkShape(s, p, j, url);
        Some((s[p + 1..j], url))
  }

  /** The regular expression tried at position p: the first alternative
      that matches, bold before italic before link. A match spans exactly
      its source text. */
  function MatchAt(s: string, p: nat): (r: Option<Capture>)
    requires p <= |s|
    ensures r.Some? ==> OccursAt(s, p, Source(r.value))
  {
    match BoldAt(s, p)
    case Some(x) => Some(BoldMatch(x))
    case None =>
      match ItalicAt(s, p)
      case Some(x) => Some(ItalicMatch(x))
      case None =>
        match LinkAt(s, p)
        case Some((t, u)) => Some(LinkMatch(t, u))
        case None => None
  }

  /** No alternative can start at a position holding neither '*' nor '[',
      nor at the end of the text. */
  lemma NoMarkAt(s: string, q: nat)
    requires q <= |s|
    requires q < |s| ==> s[q] != '*' && s[q] != '['
    ensures MatchAt(s, q).None?
  {
    if q < |s| {
      assert !OccursAt(s, q, "*") by { OccursAtChars(s, q, "*"); }
      assert !OccursAt(s, q, "[") by { OccursAtChars(s, q, "["); }
      if q + 2 <= |s| {
        assert !OccursAt(s, q, "**") by { OccursAtChars(s, q, "**"); }
      }
    }
  }
}
