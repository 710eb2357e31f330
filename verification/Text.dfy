/** Values that may be absent, and what lists keep of them. */
module Options {
  datatype Option<+T> = None | Some(value: T)

  /** The results of `f` on the elements it accepts, in order. */
  function Collect<A, B>(f: A -> Option<B>, s: seq<A>): (r: seq<B>) {
    if s == [] then []
    else
      var init := Collect(f, s[..|s| - 1]);
      var last := f(s[|s| - 1]);
      if last.Some? then init + [last.value] else init
  }

  lemma {:induction false} CollectConcat<A, B>(f: A -> Option<B>, a: seq<A>, b: seq<A>)
    ensures Collect(f, a + b) == Collect(f, a) + Collect(f, b)
  {
    if b == [] {
      assert a + b == a;
    } else {
      assert (a + b)[..|a + b| - 1] == a + b[..|b| - 1];
      CollectConcat(f, a, b[..|b| - 1]);
    }
  }

  lemma {:induction false} CollectNone<A, B>(f: A -> Option<B>, s: seq<A>)
    requires forall x :: x in s ==> f(x).None?
    ensures Collect(f, s) == []
  {
    if s != [] {
      assert s[|s| - 1] in s;
      CollectNone(f, s[..|s| - 1]);
    }
  }

  /** Each element once, where it first occurs. */
  function FirstOccurrences<T(==)>(s: seq<T>): (r: seq<T>) {
    if s == [] then []
    else
      var init := FirstOccurrences(s[..|s| - 1]);
      if s[|s| - 1] in init then init else init + [s[|s| - 1]]
  }

  lemma {:induction false} FirstOccurrencesSameElements<T>(s: seq<T>)
    ensures forall x :: x in FirstOccurrences(s) <==> x in s
  {
    if s != [] {
      FirstOccurrencesSameElements(s[..|s| - 1]);
      assert s == s[..|s| - 1] + [s[|s| - 1]];
    }
  }

  ghost predicate Distinct<T(!new)>(s: seq<T>) {
    forall i, j :: 0 <= i < j < |s| ==> s[i] != s[j]
  }

  lemma {:induction false} FirstOccurrencesDistinct<T(!new)>(s: seq<T>)
    ensures Distinct(FirstOccurrences(s))
  {
    if s != [] {
      FirstOccurrencesDistinct(s[..|s| - 1]);
    }
  }

  lemma {:induction false} FirstOccurrencesOfDistinct<T(!new)>(s: seq<T>)
    requires Distinct(s)
    ensures FirstOccurrences(s) == s
  {
    if s != [] {
      FirstOccurrencesOfDistinct(s[..|s| - 1]);
      assert s == s[..|s| - 1] + [s[|s| - 1]];
    }
  }

  /** They are in the order in which they first occur: each occurs before the next one does. */
  lemma {:induction false} FirstOccurrencesInOrder<T(!new)>(s: seq<T>, i: nat, j: nat)
    requires i < j < |FirstOccurrences(s)|
    ensures exists k :: 0 <= k < |s| && s[k] == FirstOccurrences(s)[i] && FirstOccurrences(s)[j] !in s[..k + 1]
  {
    var n := |s| - 1;
    var init, r := FirstOccurrences(s[..n]), FirstOccurrences(s);
    FirstOccurrencesSameElements(s[..n]);
    if j < |init| {
      FirstOccurrencesInOrder(s[..n], i, j);
      var k :| 0 <= k < n && s[..n][k] == init[i] && init[j] !in s[..n][..k + 1];
      assert s[..n][..k + 1] == s[..k + 1];
    } else {
      assert init[i] in init;
      var k :| 0 <= k < n && s[..n][k] == init[i];
      assert forall x :: x in s[..k + 1] ==> x in s[..n];
    }
  }

  lemma {:induction false} FirstOccurrencesShorten<T>(s: seq<T>)
    ensures |FirstOccurrences(s)| <= |s|
    ensures |FirstOccurrences(s)| == |s| ==> FirstOccurrences(s) == s
  {
    if s != [] {
      FirstOccurrencesShorten(s[..|s| - 1]);
      assert s == s[..|s| - 1] + [s[|s| - 1]];
    }
  }
}

/** The string operations the modelled code takes from its language: whitespace, stripping, searching,
    splitting and joining.  `IsSpace` and `IsBreak` list the characters Python's `str.strip`, the
    regular-expression class `\s` and `str.splitlines` react to. */
module Text {
  import opened Options

  predicate IsSpace(c: char) {
    || '\t' <= c <= '\r'
    || '\U{1c}' <= c <= ' '
    || c == '\U{85}' || c == '\U{a0}' || c == '\U{1680}'
    || '\U{2000}' <= c <= '\U{200a}'
    || c == '\U{2028}' || c == '\U{2029}' || c == '\U{202f}' || c == '\U{205f}' || c == '\U{3000}'
  }

  predicate IsBreak(c: char) {
    || '\n' <= c <= '\r'
    || '\U{1c}' <= c <= '\U{1e}'
    || c == '\U{85}' || c == '\U{2028}' || c == '\U{2029}'
  }

  predicate AllSpace(s: string) {
    forall i :: 0 <= i < |s| ==> IsSpace(s[i])
  }

  /** Drops leading whitespace and nothing else. */
  function LStrip(s: string): (r: string)
    ensures |r| <= |s|
  {
    if s != "" && IsSpace(s[0]) then LStrip(s[1..]) else s
  }

  lemma {:induction false} LStripDropsSpace(s: string)
    ensures var r := LStrip(s);
            r == s[|s| - |r|..] && AllSpace(s[..|s| - |r|]) && (r != "" ==> !IsSpace(r[0]))
  {
    if s != "" && IsSpace(s[0]) {
      var r := LStrip(s[1..]);
      LStripDropsSpace(s[1..]);
      assert s[..|s| - |r|] == [s[0]] + s[1..][..|s| - 1 - |r|];
    }
  }

  lemma TakeOfDrop(s: string, lo: nat, n: nat)
    requires lo + n <= |s|
    ensures s[lo..][..n] == s[lo..lo + n]
  {
  }

  /** Drops trailing whitespace and nothing else. */
  function RStrip(s: string): (r: string)
    ensures |r| <= |s|
  {
    if s != "" && IsSpace(s[|s| - 1]) then RStrip(s[..|s| - 1]) else s
  }

  lemma {:induction false} RStripDropsSpace(s: string)
    ensures var r := RStrip(s);
            r == s[..|r|] && AllSpace(s[|r|..]) && (r != "" ==> !IsSpace(r[|r| - 1]))
  {
    if s != "" && IsSpace(s[|s| - 1]) {
      var r := RStrip(s[..|s| - 1]);
      RStripDropsSpace(s[..|s| - 1]);
      assert s[|r|..] == s[..|s| - 1][|r|..] + [s[|s| - 1]];
    }
  }

  function Strip(s: string): (r: string)
    ensures |r| <= |s|
  {
    RStrip(LStrip(s))
  }

  /** Both ends of a stripped text carry no whitespace, so stripping again changes nothing. */
  lemma StripEnds(s: string)
    ensures var r := Strip(s);
            (r != "" ==> !IsSpace(r[0]) && !IsSpace(r[|r| - 1])) && Strip(r) == r
  {
    LStripDropsSpace(s);
    RStripDropsSpace(LStrip(s));
    var r := Strip(s);
    assert r != "" ==> r[0] == LStrip(s)[0];
  }

  /** The characters of `s` that are not whitespace, in order. */
  function NonSpace(s: string): (r: string) {
    if s == "" then ""
    else (if IsSpace(s[0]) then "" else [s[0]]) + NonSpace(s[1..])
  }

  lemma {:induction false} NonSpaceConcat(a: string, b: string)
    ensures NonSpace(a + b) == NonSpace(a) + NonSpace(b)
  {
    if a == "" {
      assert a + b == b;
    } else {
      assert (a + b)[1..] == a[1..] + b;
      NonSpaceConcat(a[1..], b);
    }
  }

  lemma {:induction false} NonSpaceOfSpace(s: string)
    requires AllSpace(s)
    ensures NonSpace(s) == ""
  {
    if s != "" {
      NonSpaceOfSpace(s[1..]);
    }
  }

  lemma {:induction false} NonSpaceLength(s: string)
    ensures |NonSpace(s)| <= |s|
  {
    if s != "" {
      NonSpaceLength(s[1..]);
    }
  }

  lemma NonSpaceStrip(s: string)
    ensures NonSpace(LStrip(s)) == NonSpace(s)
    ensures NonSpace(RStrip(s)) == NonSpace(s)
    ensures NonSpace(Strip(s)) == NonSpace(s)
  {
    NonSpaceLStrip(s);
    NonSpaceRStrip(s);
    NonSpaceRStrip(LStrip(s));
  }

  lemma NonSpaceLStrip(s: string)
    ensures NonSpace(LStrip(s)) == NonSpace(s)
  {
    LStripDropsSpace(s);
    var k := |s| - |LStrip(s)|;
    NonSpaceConcat(s[..k], s[k..]);
    NonSpaceOfSpace(s[..k]);
    assert s == s[..k] + s[k..];
  }

  lemma NonSpaceRStrip(s: string)
    ensures NonSpace(RStrip(s)) == NonSpace(s)
  {
    RStripDropsSpace(s);
    var k := |RStrip(s)|;
    NonSpaceConcat(s[..k], s[k..]);
    NonSpaceOfSpace(s[k..]);
    assert s == s[..k] + s[k..];
  }

  /** Whitespace put around a text does not change what stripping leaves. */
  lemma StripOuter(a: string, s: string, b: string)
    requires AllSpace(a) && AllSpace(b)
    ensures Strip(a + s + b) == Strip(s)
  {
    StripBefore(a, s + b);
    assert a + s + b == a + (s + b);
    StripAfter(s, b);
  }

  lemma {:induction false} StripBefore(a: string, s: string)
    requires AllSpace(a)
    ensures Strip(a + s) == Strip(s)
  {
    if a == "" {
      assert a + s == s;
    } else {
      assert (a + s)[1..] == a[1..] + s;
      assert LStrip(a + s) == LStrip(a[1..] + s);
      StripBefore(a[1..], s);
    }
  }

  lemma {:induction false} StripAfter(s: string, b: string)
    requires AllSpace(b)
    ensures Strip(s + b) == Strip(s)
  {
    if b == "" {
      assert s + b == s;
    } else {
      var b' := b[..|b| - 1];
      assert s + b == (s + b') + [b[|b| - 1]];
      StripLast(s + b', b[|b| - 1]);
      StripAfter(s, b');
    }
  }

  lemma {:induction false} StripLast(s: string, c: char)
    requires IsSpace(c)
    ensures Strip(s + [c]) == Strip(s)
  {
    if s == "" {
      assert LStrip([c]) == LStrip([]);
    } else if IsSpace(s[0]) {
      assert (s + [c])[1..] == s[1..] + [c];
      StripLast(s[1..], c);
    } else {
      assert LStrip(s + [c]) == s + [c];
      assert (s + [c])[..|s|] == s;
      assert RStrip(s + [c]) == RStrip(s);
    }
  }

  predicate StartsWith(s: string, p: string) {
    |p| <= |s| && s[..|p|] == p
  }

  predicate Contains(s: string, p: string) {
    exists i :: 0 <= i <= |s| && StartsWith(s[i..], p)
  }

  lemma ConcatAssoc(a: string, b: string, c: string)
    ensures a + (b + c) == a + b + c
  {
  }

  lemma JoinCons(sep: string, x: string, rest: seq<string>)
    requires rest != []
    ensures Join(sep, [x] + rest) == x + sep + Join(sep, rest)
  {
  }

  lemma Occurs(s: string, p: string, i: nat)
    requires i + |p| <= |s| && forall j :: i <= j < i + |p| ==> s[j] == p[j - i]
    ensures Contains(s, p)
  {
    assert s[i..][..|p|] == p;
    assert StartsWith(s[i..], p);
  }

  lemma Occurrence(s: string, p: string) returns (i: nat)
    requires Contains(s, p)
    ensures i + |p| <= |s| && forall j :: i <= j < i + |p| ==> s[j] == p[j - i]
  {
    i :| 0 <= i <= |s| && StartsWith(s[i..], p);
    forall j | i <= j < i + |p| ensures s[j] == p[j - i] {
      assert s[i..][..|p|][j - i] == s[j];
    }
  }

  lemma NotInside(s: string, p: string, i: nat, k: nat)
    requires i + |p| <= |s| && forall j :: i <= j < i + |p| ==> s[j] == p[j - i]
    requires k < |s| && s[k] !in p
    ensures k < i || i + |p| <= k
  {
  }

  lemma ContainsAcross(a: string, c: char, b: string, p: string)
    requires p != "" && c !in p && Contains(a + [c] + b, p)
    ensures Contains(a, p) || Contains(b, p)
  {
    var s := a + [c] + b;
    var i := Occurrence(s, p);
    assert s[|a|] == c;
    if i > |a| {
      var k := i - |a| - 1;
      forall j | k <= j < k + |p| ensures b[j] == p[j - k] {
        assert s[j + |a| + 1] == b[j];
      }
      Occurs(b, p, k);
    } else {
      NotInside(s, p, i, |a|);
      forall j | i <= j < i + |p| ensures a[j] == p[j - i] {
        assert s[j] == a[j];
      }
      Occurs(a, p, i);
    }
  }

  lemma SliceContains(s: string, lo: nat, hi: nat, p: string)
    requires lo <= hi <= |s| && Contains(s[lo..hi], p)
    ensures Contains(s, p)
  {
    var i := Occurrence(s[lo..hi], p);
    forall j | lo + i <= j < lo + i + |p| ensures s[j] == p[j - lo - i] {
      assert s[lo..hi][j - lo] == s[j];
    }
    Occurs(s, p, lo + i);
  }

  /** Where `p` first starts in `s`. */
  function IndexOf(s: string, p: string): (r: Option<nat>)
    ensures r.Some? ==> r.value + |p| <= |s| && StartsWith(s[r.value..], p)
    ensures r.Some? ==> forall i :: 0 <= i < r.value ==> !StartsWith(s[i..], p)
    ensures r.None? ==> forall i :: 0 <= i <= |s| ==> !StartsWith(s[i..], p)
  {
    if StartsWith(s, p) then
      assert s[0..] == s;
      Some(0)
    else if s == "" then None
    else
      var r := IndexOf(s[1..], p);
      assert s[0..] == s;
      assert forall i :: 1 <= i <= |s| ==> s[i..] == s[1..][i - 1..];
      match r
      case Some(i) => Some(i + 1)
      case None => None
  }

  /** Where `p` last starts in `s`, or -1, as Python's `rfind` answers. */
  function RFind(s: string, p: string): (r: int)
    ensures -1 <= r <= |s|
  {
    RFindFrom(s, p, |s|)
  }

  function RFindFrom(s: string, p: string, k: nat): (r: int)
    requires k <= |s|
    ensures -1 <= r <= k
  {
    if StartsWith(s[k..], p) then k
    else if k == 0 then -1
    else RFindFrom(s, p, k - 1)
  }

  lemma {:induction false} RFindIsLast(s: string, p: string, k: nat)
    requires k <= |s|
    ensures var r := RFindFrom(s, p, k);
            && (r >= 0 ==> StartsWith(s[r..], p))
            && (forall i :: r < i <= k && 0 <= i ==> !StartsWith(s[i..], p))
  {
    if !StartsWith(s[k..], p) && k > 0 {
      RFindIsLast(s, p, k - 1);
    }
  }

  /** The length of the longest prefix whose characters all satisfy `p`. */
  function Span(s: string, p: char -> bool): (n: nat)
    ensures n <= |s|
  {
    if s == "" || !p(s[0]) then 0 else 1 + Span(s[1..], p)
  }

  lemma {:induction false} SpanIsLongest(s: string, p: char -> bool)
    ensures forall i :: 0 <= i < Span(s, p) ==> p(s[i])
    ensures Span(s, p) < |s| ==> !p(s[Span(s, p)])
  {
    if s != "" && p(s[0]) {
      SpanIsLongest(s[1..], p);
    }
  }

  lemma {:induction false} SpanUnique(s: string, p: char -> bool, n: nat)
    requires n <= |s|
    requires forall i :: 0 <= i < n ==> p(s[i])
    requires n < |s| ==> !p(s[n])
    ensures Span(s, p) == n
  {
    if n > 0 {
      SpanUnique(s[1..], p, n - 1);
    }
  }

  /** `s.split(c)` for one separator character. */
  function SplitOn(s: string, c: char): (r: seq<string>)
    ensures |r| >= 1
    decreases |s|
  {
    var n := Span(s, x => x != c);
    if n == |s| then [s] else [s[..n]] + SplitOn(s[n + 1..], c)
  }

  lemma {:induction false} PiecesLackSeparator(s: string, c: char)
    ensures forall piece :: piece in SplitOn(s, c) ==> c !in piece
    decreases |s|
  {
    SpanIsLongest(s, x => x != c);
    var n := Span(s, x => x != c);
    if n < |s| {
      PiecesLackSeparator(s[n + 1..], c);
    }
  }

  lemma SplitOnFirst(a: string, c: char, b: string)
    requires c !in a
    ensures SplitOn(a + [c] + b, c) == [a] + SplitOn(b, c)
  {
    var s := a + [c] + b;
    SpanUnique(s, x => x != c, |a|);
    assert s[..|a|] == a && s[|a| + 1..] == b;
  }

  lemma SplitOnWhole(s: string, c: char)
    requires c !in s
    ensures SplitOn(s, c) == [s]
  {
    SpanIsLongest(s, x => x != c);
  }

  function Join(sep: string, parts: seq<string>): string {
    if parts == [] then ""
    else if |parts| == 1 then parts[0]
    else parts[0] + sep + Join(sep, parts[1..])
  }

  lemma {:induction false} SplitJoin(c: char, cells: seq<string>)
    requires cells != [] && forall x :: x in cells ==> c !in x
    ensures SplitOn(Join([c], cells), c) == cells
  {
    if |cells| == 1 {
      SplitOnWhole(cells[0], c);
    } else {
      SplitOnFirst(cells[0], c, Join([c], cells[1..]));
      SplitJoin(c, cells[1..]);
      assert cells == [cells[0]] + cells[1..];
    }
  }

  lemma AroundSeparator(s: string, c: char, n: nat)
    requires n < |s| && s[n] == c
    ensures s == s[..n] + [c] + s[n + 1..]
  {
  }

  lemma {:induction false} JoinSplit(s: string, c: char)
    ensures Join([c], SplitOn(s, c)) == s
    decreases |s|
  {
    var n := Span(s, x => x != c);
    SpanIsLongest(s, x => x != c);
    if n < |s| {
      JoinSplit(s[n + 1..], c);
      JoinCons([c], s[..n], SplitOn(s[n + 1..], c));
      AroundSeparator(s, c, n);
    }
  }

  lemma {:induction false} JoinSnoc(sep: string, parts: seq<string>, p: string)
    requires parts != []
    ensures Join(sep, parts + [p]) == Join(sep, parts) + sep + p
  {
    if |parts| == 1 {
      assert (parts + [p])[1..] == [p];
    } else {
      assert (parts + [p])[1..] == parts[1..] + [p];
      JoinSnoc(sep, parts[1..], p);
    }
  }

  /** ASCII lower-casing.  Beyond it, only two characters lower-case to text with ASCII letters in it: the Kelvin
      sign, to `k`, and the dotted capital I, to `i` and a combining dot.  No word looked for in lower-cased text
      contains `k` or ends in `i`, so these words are found exactly where full lower-casing lets them be found. */
  function ToLower(s: string): (r: string)
    ensures |r| == |s|
  {
    seq(|s|, i requires 0 <= i < |s| =>
      if 'A' <= s[i] <= 'Z' then ((s[i] as int) + 32) as char else s[i])
  }

  predicate NoBreaks(s: string) {
    forall i :: 0 <= i < |s| ==> !IsBreak(s[i])
  }

  /** `s.splitlines()`: a carriage return directly followed by a line feed counts as one break, and a
      break at the very end opens no further line. */
  function SplitLines(s: string): seq<string> {
    LinesFrom("", false, s)
  }

  /** The lines still to come when `line` has been read since the last break, `afterReturn` says whether that
      break was a carriage return just read, and `s` is unread. */
  function LinesFrom(line: string, afterReturn: bool, s: string): seq<string>
    decreases s
  {
    if s == "" then (if line == "" then [] else [line])
    else if afterReturn && s[0] == '\n' then LinesFrom("", false, s[1..])
    else if IsBreak(s[0]) then [line] + LinesFrom("", s[0] == '\r', s[1..])
    else LinesFrom(line + [s[0]], false, s[1..])
  }

  lemma {:induction false} LinesHaveNoBreaks(line: string, afterReturn: bool, s: string)
    requires NoBreaks(line)
    ensures forall l :: l in LinesFrom(line, afterReturn, s) ==> NoBreaks(l)
    decreases s
  {
    if s != "" {
      if afterReturn && s[0] == '\n' {
        LinesHaveNoBreaks("", false, s[1..]);
      } else if IsBreak(s[0]) {
        LinesHaveNoBreaks("", s[0] == '\r', s[1..]);
      } else {
        LinesHaveNoBreaks(line + [s[0]], false, s[1..]);
      }
    }
  }

  predicate EndsInBreak(a: string) {
    a != "" && IsBreak(a[|a| - 1])
  }

  /** A text that ends in a break contributes the same lines whatever follows it. */
  lemma {:induction false} LinesConcat(line: string, afterReturn: bool, a: string, b: string)
    requires EndsInBreak(a)
    ensures LinesFrom(line, afterReturn, a + b)
         == LinesFrom(line, afterReturn, a) + LinesFrom("", a[|a| - 1] == '\r', b)
    decreases a
  {
    var c, rest := a[0], a[1..];
    assert (a + b)[0] == c && (a + b)[1..] == rest + b;
    if rest == "" {
      assert rest + b == b;
    } else {
      assert rest[|rest| - 1] == a[|a| - 1];
      if afterReturn && c == '\n' {
        LinesConcat("", false, rest, b);
      } else if IsBreak(c) {
        LinesConcat("", c == '\r', rest, b);
      } else {
        LinesConcat(line + [c], false, rest, b);
      }
    }
  }

  /** The concatenation law, unless a carriage return would meet a line feed. */
  lemma SplitLinesConcat(a: string, b: string)
    requires EndsInBreak(a)
    requires a[|a| - 1] != '\r' || b == "" || b[0] != '\n'
    ensures SplitLines(a + b) == SplitLines(a) + SplitLines(b)
  {
    LinesConcat("", false, a, b);
  }

  /** Ending the last line with a line feed adds no line, except after an empty text. */
  lemma {:induction false} LinesTerminated(line: string, afterReturn: bool, a: string)
    requires if a == "" then !afterReturn else !EndsInBreak(a)
    ensures LinesFrom(line, afterReturn, a + "\n")
         == if line == "" && a == "" then [""] else LinesFrom(line, afterReturn, a)
    decreases a
  {
    if a != "" {
      var c, rest := a[0], a[1..];
      assert (a + "\n")[0] == c && (a + "\n")[1..] == rest + "\n";
      if afterReturn && c == '\n' {
        LinesTerminated("", false, rest);
      } else if IsBreak(c) {
        LinesTerminated("", c == '\r', rest);
      } else {
        LinesTerminated(line + [c], false, rest);
      }
    }
  }

  /** The laws that determine the lines of a text: one without a break is one line, or none if it is empty, and a
      break, where a carriage return and a line feed are one, ends a line. */
  lemma SplitLinesLaws(a: string, c: char, b: string)
    requires NoBreaks(a) && IsBreak(c)
    ensures SplitLines(a) == if a == "" then [] else [a]
    ensures c != '\r' || b == "" || b[0] != '\n' ==> SplitLines(a + [c] + b) == [a] + SplitLines(b)
    ensures SplitLines(a + ['\r', '\n'] + b) == [a] + SplitLines(b)
  {
    SingleLine("", a);
    assert "" + a == a;
    LineThen("", a, [c] + b);
    assert a + [c] + b == a + ([c] + b) && ([c] + b)[1..] == b;
    LineThen("", a, ['\r', '\n'] + b);
    assert a + ['\r', '\n'] + b == a + (['\r', '\n'] + b);
    assert (['\r', '\n'] + b)[1..] == ['\n'] + b && (['\n'] + b)[1..] == b;
    AfterReturn(b);
  }

  /** A return just read matters only before a line feed. */
  lemma AfterReturn(b: string)
    ensures b == "" || b[0] != '\n' ==> LinesFrom("", true, b) == LinesFrom("", false, b)
  {
  }

  lemma {:induction false} LineThen(line: string, a: string, rest: string)
    requires NoBreaks(a)
    ensures LinesFrom(line, false, a + rest) == LinesFrom(line + a, false, rest)
    decreases a
  {
    if a == "" {
      assert a + rest == rest && line + a == line;
    } else {
      assert (a + rest)[1..] == a[1..] + rest;
      LineThen(line + [a[0]], a[1..], rest);
      assert line + [a[0]] + a[1..] == line + a;
    }
  }

  lemma {:induction false} SingleLine(line: string, a: string)
    requires NoBreaks(a)
    ensures LinesFrom(line, false, a) == if line + a == "" then [] else [line + a]
    decreases a
  {
    if a == "" {
      assert line + a == line;
    } else {
      SingleLine(line + [a[0]], a[1..]);
      assert line + [a[0]] + a[1..] == line + a;
    }
  }

  /** One complete line in front of a text is one more line. */
  lemma SplitLinesCons(a: string, b: string)
    requires NoBreaks(a)
    ensures SplitLines(a + "\n" + b) == [a] + SplitLines(b)
  {
    SplitLinesConcat(a + "\n", b);
    LinesTerminated("", false, a);
    SingleLine("", a);
    assert "" + a == a;
  }
}
