/** Accepting a redline: three passes of regular-expression substitution over text in which `{--` and `--}`
    wrap removed text and `{++` and `++}` wrap added text. */
module Redline {
  import opened Options
  import opened Text

  const OPEN_DEL := "{--"
  const CLOSE_DEL := "--}"
  const OPEN_INS := "{++"
  const CLOSE_INS := "++}"

  /** What stands before and after the first occurrence of `p`: where a lazy wildcard followed by `p` stops. */
  function Cut(s: string, p: string): (r: Option<(string, string)>)
    ensures r.Some? ==> |r.value.0| + |p| + |r.value.1| == |s|
  {
    if StartsWith(s, p) then Some(("", s[|p|..]))
    else if s == "" then None
    else match Cut(s[1..], p)
      case Some((before, after)) => Some(([s[0]] + before, after))
      case None => None
  }

  /** One substitution pass of the pattern `open([\s\S]*?)close`: at every position from the left, the shortest
      match is replaced by its group or by nothing; where there is none the character stays. */
  function SubPairs(s: string, open: string, close: string, keep: bool): string
    requires open != ""
    decreases |s|
  {
    if s == "" then ""
    else if !StartsWith(s, open) then [s[0]] + SubPairs(s[1..], open, close, keep)
    else match Cut(s[|open|..], close)
      case Some((inner, rest)) => (if keep then inner else "") + SubPairs(rest, open, close, keep)
      case None => [s[0]] + SubPairs(s[1..], open, close, keep)
  }

  predicate AtMarker(s: string) {
    StartsWith(s, OPEN_DEL) || StartsWith(s, CLOSE_DEL) || StartsWith(s, OPEN_INS) || StartsWith(s, CLOSE_INS)
  }

  /** The last pass: every marker that is left goes. */
  function StripMarkers(s: string): string {
    if s == "" then ""
    else if AtMarker(s) then StripMarkers(s[3..])
    else [s[0]] + StripMarkers(s[1..])
  }

  function Clean(redline: string): string {
    StripMarkers(SubPairs(SubPairs(redline, OPEN_DEL, CLOSE_DEL, false), OPEN_INS, CLOSE_INS, true))
  }

  /** The exported function, for which no redline and an empty one are the same. */
  function CleanRevision(redline: Option<string>): string {
    match redline
    case Some(text) => if text == "" then "" else Clean(text)
    case None => ""
  }

  // ----- text as tokens -----

  datatype Token = Ch(c: char) | OpenDel | CloseDel | OpenIns | CloseIns

  function TokenText(t: Token): string {
    match t
    case Ch(c) => [c]
    case OpenDel => OPEN_DEL
    case CloseDel => CLOSE_DEL
    case OpenIns => OPEN_INS
    case CloseIns => CLOSE_INS
  }

  function Render(ts: seq<Token>): string {
    if ts == [] then "" else TokenText(ts[0]) + Render(ts[1..])
  }

  predicate IsBrace(c: char) {
    c == '{' || c == '}'
  }

  predicate IsSign(c: char) {
    c == '-' || c == '+'
  }

  /** A character that is no dash and no plus. */
  predicate Ordinary(t: Token) {
    t.Ch? && !IsSign(t.c)
  }

  /** An opening brace of the text is followed, and a closing one preceded, by an ordinary character, so that neither
      can be part of a marker. */
  predicate Beside(x: Token, y: Token) {
    (x == Ch('{') ==> Ordinary(y)) && (y == Ch('}') ==> Ordinary(x))
  }

  /** The braces of the text form no marker with their neighbours. */
  ghost predicate Lexed(ts: seq<Token>) {
    forall i, j :: 0 <= i < j < |ts| && j == i + 1 ==> Beside(ts[i], ts[j])
  }

  lemma LexedPart(a: seq<Token>, b: seq<Token>)
    requires Lexed(a + b)
    ensures Lexed(a) && Lexed(b)
    ensures a != [] && b != [] ==> Beside(a[|a| - 1], b[0])
  {
    var ts := a + b;
    assert forall i :: 0 <= i < |a| ==> ts[i] == a[i];
    assert forall i :: 0 <= i < |b| ==> ts[|a| + i] == b[i];
    forall i, j | 0 <= i && j == i + 1 && j < |b| ensures Beside(b[i], b[j]) {
      assert Beside(ts[|a| + i], ts[|a| + j]);
    }
  }

  lemma LexedTail(ts: seq<Token>)
    requires Lexed(ts) && ts != []
    ensures Lexed(ts[1..]) && (|ts| > 1 ==> Beside(ts[0], ts[1]))
  {
    assert ts == [ts[0]] + ts[1..];
    LexedPart([ts[0]], ts[1..]);
  }

  lemma LexedJoin(a: seq<Token>, b: seq<Token>)
    requires Lexed(a) && Lexed(b) && (a != [] && b != [] ==> Beside(a[|a| - 1], b[0]))
    ensures Lexed(a + b)
  {
  }

  /** A text whose braces occur only in markers is of this kind. */
  lemma MarkersOnlyLexed(ts: seq<Token>)
    requires forall t :: t in ts && t.Ch? ==> !IsBrace(t.c)
    ensures Lexed(ts)
  {
    assert forall i :: 0 <= i < |ts| ==> ts[i] in ts;
  }

  lemma {:induction false} RenderConcat(a: seq<Token>, b: seq<Token>)
    ensures Render(a + b) == Render(a) + Render(b)
  {
    if a == [] {
      assert a + b == b;
    } else {
      assert (a + b)[1..] == a[1..] + b;
      RenderConcat(a[1..], b);
    }
  }

  lemma RenderHead(ts: seq<Token>)
    requires ts != []
    ensures Render(ts) == TokenText(ts[0]) + Render(ts[1..])
    ensures ts[0].Ch? ==> Render(ts) != "" && Render(ts)[0] == ts[0].c && Render(ts)[1..] == Render(ts[1..])
    ensures !ts[0].Ch? ==>
            |Render(ts)| >= 3 && Render(ts)[..3] == TokenText(ts[0]) && Render(ts)[3..] == Render(ts[1..])
  {
  }

  lemma RenderCons(t: Token, ts: seq<Token>)
    ensures Render([t] + ts) == TokenText(t) + Render(ts)
  {
  }

  /** Only a closing brace of the text itself can come first. */
  lemma FirstClosing(ts: seq<Token>)
    requires Render(ts) != "" && Render(ts)[0] == '}'
    ensures ts[0] == Ch('}')
  {
  }

  lemma FirstSign(ts: seq<Token>)
    requires Render(ts) != "" && IsSign(Render(ts)[0])
    ensures !Ordinary(ts[0])
  {
  }

  lemma MiddleIsSign(ts: seq<Token>)
    requires ts != [] && !ts[0].Ch?
    ensures |Render(ts)| >= 3 && IsSign(Render(ts)[1])
  {
    RenderHead(ts);
    MarkChars(ts[0]);
    PrefixChars(Render(ts), TokenText(ts[0]));
  }

  /** If a closing brace comes second, it is one of the text itself and an ordinary character comes first. */
  lemma SecondClosing(ts: seq<Token>)
    requires Lexed(ts) && |Render(ts)| >= 2 && Render(ts)[1] == '}'
    ensures Ordinary(ts[0]) && Render(ts)[0] == ts[0].c
  {
    RenderHead(ts);
    LexedTail(ts);
    if ts[0].Ch? {
      FirstClosing(ts[1..]);
    } else {
      MiddleIsSign(ts);
      assert false;
    }
  }

  lemma MarkChars(m: Token)
    requires !m.Ch?
    ensures var p := TokenText(m); |p| == 3 && IsSign(p[1]) && !IsBrace(p[1])
    ensures var p := TokenText(m); p[0] == '{' || (IsSign(p[0]) && p[2] == '}')
  {
  }

  lemma PrefixChars(s: string, p: string)
    requires |p| == 3 && StartsWith(s, p)
    ensures |s| >= 3 && s[0] == p[0] && s[1] == p[1] && s[2] == p[2]
  {
    assert s[..3][0] == s[0] && s[..3][1] == s[1] && s[..3][2] == s[2];
  }

  /** No marker starts at a character of the text. */
  lemma NoMarkerAtChar(ts: seq<Token>, m: Token)
    requires Lexed(ts) && !m.Ch? && ts != [] && ts[0].Ch?
    ensures !StartsWith(Render(ts), TokenText(m))
  {
    RenderHead(ts);
    LexedTail(ts);
    MarkChars(m);
    var s, p, rest := Render(ts), TokenText(m), Render(ts[1..]);
    if StartsWith(s, p) {
      PrefixChars(s, p);
      assert s[1] == rest[0] && s[2] == rest[1];
      if p[0] == '{' {
        FirstSign(ts[1..]);
        assert false;
      } else {
        SecondClosing(ts[1..]);
        assert false;
      }
    }
  }

  /** A marker is found exactly where a token of that kind stands. */
  lemma MarkerAtToken(ts: seq<Token>, m: Token)
    requires Lexed(ts) && !m.Ch?
    ensures StartsWith(Render(ts), TokenText(m)) <==> ts != [] && ts[0] == m
  {
    if ts != [] {
      RenderHead(ts);
      var s := Render(ts);
      if ts[0].Ch? {
        NoMarkerAtChar(ts, m);
      } else {
        assert s[..3][0] == TokenText(ts[0])[0] && s[..3][1] == TokenText(ts[0])[1] && s[..3][2] == TokenText(ts[0])[2];
        assert TokenText(m)[0] != TokenText(ts[0])[0] || TokenText(m)[1] != TokenText(ts[0])[1]
               || TokenText(m)[2] != TokenText(ts[0])[2] || m == ts[0];
      }
    }
  }

  /** What is rendered behind a marker follows it directly. */
  lemma BehindMark(ts: seq<Token>, k: nat, i: nat)
    requires ts != [] && !ts[0].Ch? && k <= 3
    ensures |Render(ts)| == 3 + |Render(ts[1..])|
    ensures i < 3 - k ==> Render(ts)[k..][i] == TokenText(ts[0])[k + i]
    ensures 3 - k <= i < |Render(ts)| - k ==> Render(ts)[k..][i] == Render(ts[1..])[i - (3 - k)]
  {
    RenderHead(ts);
  }

  lemma NoMarkerAtSecond(ts: seq<Token>, m: Token)
    requires Lexed(ts) && !m.Ch? && ts != [] && !ts[0].Ch?
    ensures !StartsWith(Render(ts)[1..], TokenText(m))
  {
    LexedTail(ts);
    MarkChars(m);
    MarkChars(ts[0]);
    BehindMark(ts, 1, 0);
    BehindMark(ts, 1, 2);
    if StartsWith(Render(ts)[1..], TokenText(m)) {
      PrefixChars(Render(ts)[1..], TokenText(m));
      FirstClosing(ts[1..]);
      assert false;
    }
  }

  lemma NoMarkerAtThird(ts: seq<Token>, m: Token)
    requires Lexed(ts) && !m.Ch? && ts != [] && !ts[0].Ch?
    ensures !StartsWith(Render(ts)[2..], TokenText(m))
  {
    LexedTail(ts);
    MarkChars(m);
    LastOfMark(ts[0]);
    BehindMark(ts, 2, 0);
    BehindMark(ts, 2, 1);
    BehindMark(ts, 2, 2);
    if StartsWith(Render(ts)[2..], TokenText(m)) {
      PrefixChars(Render(ts)[2..], TokenText(m));
      SecondClosing(ts[1..]);
      assert false;
    }
  }

  lemma LastOfMark(m: Token)
    requires !m.Ch?
    ensures TokenText(m)[2] != '{'
  {
  }

  /** Inside a marker no marker starts. */
  lemma NoMarkerInside(ts: seq<Token>, m: Token, k: nat)
    requires Lexed(ts) && !m.Ch? && ts != [] && !ts[0].Ch? && 1 <= k <= 2
    ensures !StartsWith(Render(ts)[k..], TokenText(m))
  {
    NoMarkerAtSecond(ts, m);
    NoMarkerAtThird(ts, m);
  }

  // ----- the passes on tokens -----

  function CutTok(ts: seq<Token>, m: Token): (r: Option<(seq<Token>, seq<Token>)>)
    ensures r.Some? ==> ts == r.value.0 + [m] + r.value.1 && m !in r.value.0
    ensures r.None? ==> m !in ts
  {
    if ts == [] then None
    else if ts[0] == m then
      assert ts == [] + [m] + ts[1..];
      Some(([], ts[1..]))
    else match CutTok(ts[1..], m)
      case Some((before, after)) =>
        assert ts == [ts[0]] + ts[1..] == [ts[0]] + before + [m] + after;
        Some(([ts[0]] + before, after))
      case None => None
  }

  function Prepend(s: string, cut: Option<(string, string)>): Option<(string, string)> {
    match cut
    case Some((before, after)) => Some((s + before, after))
    case None => None
  }

  lemma CutSkip(s: string, p: string)
    requires s != "" && !StartsWith(s, p)
    ensures Cut(s, p) == Prepend([s[0]], Cut(s[1..], p))
  {
  }

  lemma PrependTwice(a: string, b: string, cut: Option<(string, string)>)
    ensures Prepend(a, Prepend(b, cut)) == Prepend(a + b, cut)
  {
    if cut.Some? {
      assert a + (b + cut.value.0) == a + b + cut.value.0;
    }
  }

  lemma CutSkipThree(s: string, p: string)
    requires |s| >= 3 && !StartsWith(s, p) && !StartsWith(s[1..], p) && !StartsWith(s[2..], p)
    ensures Cut(s, p) == Prepend(s[..3], Cut(s[3..], p))
  {
    CutSkip(s, p);
    CutSkip(s[1..], p);
    CutSkip(s[2..], p);
    assert s[1..][1..] == s[2..] && s[2..][1..] == s[3..];
    PrependTwice([s[1]], [s[2]], Cut(s[3..], p));
    PrependTwice([s[0]], [s[1]] + [s[2]], Cut(s[3..], p));
    assert s[..3] == [s[0]] + ([s[1]] + [s[2]]);
  }

  lemma CutPasses(ts: seq<Token>, m: Token)
    requires Lexed(ts) && !m.Ch? && ts != [] && ts[0] != m
    ensures Cut(Render(ts), TokenText(m)) == Prepend(TokenText(ts[0]), Cut(Render(ts[1..]), TokenText(m)))
  {
    MarkerAtToken(ts, m);
    RenderHead(ts);
    if ts[0].Ch? {
      CutSkip(Render(ts), TokenText(m));
    } else {
      NoMarkerInside(ts, m, 1);
      NoMarkerInside(ts, m, 2);
      CutSkipThree(Render(ts), TokenText(m));
    }
  }

  function Rendered(cut: Option<(seq<Token>, seq<Token>)>): Option<(string, string)> {
    match cut
    case Some((before, after)) => Some((Render(before), Render(after)))
    case None => None
  }

  /** Searching the text for a marker finds the first token of that kind. */
  lemma {:induction false} CutFindsToken(ts: seq<Token>, m: Token)
    requires Lexed(ts) && !m.Ch?
    ensures Cut(Render(ts), TokenText(m)) == Rendered(CutTok(ts, m))
    decreases |ts|
  {
    MarkerAtToken(ts, m);
    if ts != [] {
      RenderHead(ts);
      LexedTail(ts);
      if ts[0] != m {
        CutFindsToken(ts[1..], m);
        CutPasses(ts, m);
        var cut := CutTok(ts[1..], m);
        if cut.Some? {
          assert ([ts[0]] + cut.value.0)[1..] == cut.value.0;
        }
      }
    }
  }

  function PairTok(ts: seq<Token>, open: Token, close: Token, keep: bool): (r: seq<Token>)
    decreases |ts|
  {
    if ts == [] then []
    else if ts[0] != open then [ts[0]] + PairTok(ts[1..], open, close, keep)
    else match CutTok(ts[1..], close)
      case Some((inner, rest)) => (if keep then inner else []) + PairTok(rest, open, close, keep)
      case None => [ts[0]] + PairTok(ts[1..], open, close, keep)
  }

  lemma SubSkip(s: string, open: string, close: string, keep: bool)
    requires open != "" && s != ""
    requires !StartsWith(s, open) || Cut(s[|open|..], close).None?
    ensures SubPairs(s, open, close, keep) == [s[0]] + SubPairs(s[1..], open, close, keep)
  {
  }

  lemma SubSkipThree(s: string, open: string, close: string, keep: bool)
    requires open != "" && |s| >= 3
    requires !StartsWith(s, open) || Cut(s[|open|..], close).None?
    requires !StartsWith(s[1..], open) && !StartsWith(s[2..], open)
    ensures SubPairs(s, open, close, keep) == s[..3] + SubPairs(s[3..], open, close, keep)
  {
    SubSkip(s, open, close, keep);
    SubSkip(s[1..], open, close, keep);
    SubSkip(s[2..], open, close, keep);
    assert s[1..][1..] == s[2..] && s[2..][1..] == s[3..];
    assert s[..3] == [s[0]] + [s[1]] + [s[2]];
  }

  /** A token that opens no match passes unchanged. */
  lemma SubPasses(ts: seq<Token>, open: Token, close: Token, keep: bool)
    requires Lexed(ts) && ts != [] && !open.Ch? && !close.Ch?
    requires ts[0] == open ==> CutTok(ts[1..], close).None?
    ensures SubPairs(Render(ts), TokenText(open), TokenText(close), keep)
         == TokenText(ts[0]) + SubPairs(Render(ts[1..]), TokenText(open), TokenText(close), keep)
  {
    RenderHead(ts);
    LexedTail(ts);
    MarkerAtToken(ts, open);
    CutFindsToken(ts[1..], close);
    if ts[0].Ch? {
      SubSkip(Render(ts), TokenText(open), TokenText(close), keep);
    } else {
      NoMarkerInside(ts, open, 1);
      NoMarkerInside(ts, open, 2);
      SubSkipThree(Render(ts), TokenText(open), TokenText(close), keep);
    }
  }

  lemma EdgesAround(t: Token, inner: seq<Token>, m: Token, rest: seq<Token>)
    requires Lexed([t] + (inner + ([m] + rest))) && !t.Ch? && !m.Ch?
    ensures Lexed(inner) && Lexed(rest)
    ensures inner != [] ==> inner[0] != Ch('}') && inner[|inner| - 1] != Ch('{')
    ensures rest != [] ==> rest[0] != Ch('}')
  {
    LexedPart([t], inner + ([m] + rest));
    LexedPart(inner, [m] + rest);
    LexedPart([m], rest);
    assert inner != [] ==> (inner + ([m] + rest))[0] == inner[0];
  }

  lemma CutGroups(t: Token, ts: seq<Token>, inner: seq<Token>, m: Token, rest: seq<Token>)
    requires ts == inner + [m] + rest
    ensures [t] + ts == [t] + (inner + ([m] + rest))
  {
    assert inner + [m] + rest == inner + ([m] + rest);
  }

  /** The two parts of a cut, and what stands at its edges. */
  lemma CutEdges(t: Token, ts: seq<Token>, m: Token, inner: seq<Token>, rest: seq<Token>)
    requires Lexed([t] + ts) && !t.Ch? && !m.Ch? && CutTok(ts, m) == Some((inner, rest))
    ensures Lexed(inner) && Lexed(rest)
    ensures inner != [] ==> inner[0] != Ch('}') && inner[|inner| - 1] != Ch('{')
    ensures rest != [] ==> rest[0] != Ch('}')
  {
    CutGroups(t, ts, inner, m, rest);
    EdgesAround(t, inner, m, rest);
  }

  /** What a pass leaves in front is what was there or comes from behind a marker. */
  ghost predicate SameFront(ts: seq<Token>, r: seq<Token>) {
    r != [] ==> ts != [] && (r[0] == ts[0] || (!ts[0].Ch? && r[0] != Ch('}')))
  }

  /** What is kept of a pair, in front of what the pass makes of the rest. */
  lemma KeptJoins(kept: seq<Token>, rest: seq<Token>, r: seq<Token>)
    requires Lexed(kept) && (kept != [] ==> kept[0] != Ch('}') && kept[|kept| - 1] != Ch('{'))
    requires Lexed(r) && SameFront(rest, r) && (rest != [] ==> rest[0] != Ch('}'))
    ensures Lexed(kept + r) && (kept + r != [] ==> (kept + r)[0] != Ch('}'))
  {
    LexedJoin(kept, r);
  }

  lemma PassedJoins(t: Token, tail: seq<Token>, r: seq<Token>)
    requires (tail != [] ==> Beside(t, tail[0])) && Lexed(r) && SameFront(tail, r)
    ensures Lexed([t] + r)
  {
    LexedJoin([t], r);
  }

  lemma {:induction false} LexedPairTok(ts: seq<Token>, open: Token, close: Token, keep: bool)
    requires Lexed(ts) && !open.Ch? && !close.Ch?
    ensures Lexed(PairTok(ts, open, close, keep)) && SameFront(ts, PairTok(ts, open, close, keep))
    decreases |ts|
  {
    if ts != [] {
      var cut := CutTok(ts[1..], close);
      if ts[0] == open && cut.Some? {
        assert ts == [ts[0]] + ts[1..];
        CutEdges(ts[0], ts[1..], close, cut.value.0, cut.value.1);
        LexedPairTok(cut.value.1, open, close, keep);
        KeptJoins(if keep then cut.value.0 else [], cut.value.1, PairTok(cut.value.1, open, close, keep));
      } else {
        LexedTail(ts);
        LexedPairTok(ts[1..], open, close, keep);
        PassedJoins(ts[0], ts[1..], PairTok(ts[1..], open, close, keep));
      }
    }
  }

  /** Where a mark opens and is closed later, the pass takes the whole pair. */
  lemma SubOpens(ts: seq<Token>, open: Token, close: Token, keep: bool)
    requires Lexed(ts) && !open.Ch? && !close.Ch?
    requires ts != [] && ts[0] == open && CutTok(ts[1..], close).Some?
    ensures var (inner, rest) := CutTok(ts[1..], close).value;
            SubPairs(Render(ts), TokenText(open), TokenText(close), keep)
            == (if keep then Render(inner) else "") + SubPairs(Render(rest), TokenText(open), TokenText(close), keep)
    ensures Lexed(CutTok(ts[1..], close).value.1)
  {
    RenderHead(ts);
    LexedTail(ts);
    assert ts == [ts[0]] + ts[1..];
    var cut := CutTok(ts[1..], close);
    CutEdges(ts[0], ts[1..], close, cut.value.0, cut.value.1);
    MarkerAtToken(ts, open);
    CutFindsToken(ts[1..], close);
  }

  /** One pass over the text is one pass over the tokens. */
  lemma {:induction false} SubIsPairTok(ts: seq<Token>, open: Token, close: Token, keep: bool)
    requires Lexed(ts) && !open.Ch? && !close.Ch?
    ensures SubPairs(Render(ts), TokenText(open), TokenText(close), keep) == Render(PairTok(ts, open, close, keep))
    decreases |ts|
  {
    if ts != [] {
      var cut := CutTok(ts[1..], close);
      if ts[0] == open && cut.Some? {
        SubOpens(ts, open, close, keep);
        SubIsPairTok(cut.value.1, open, close, keep);
        RenderConcat(if keep then cut.value.0 else [], PairTok(cut.value.1, open, close, keep));
      } else {
        SubPasses(ts, open, close, keep);
        LexedTail(ts);
        SubIsPairTok(ts[1..], open, close, keep);
        RenderCons(ts[0], PairTok(ts[1..], open, close, keep));
      }
    }
  }

  /** The characters among the tokens. */
  function Chars(ts: seq<Token>): string {
    if ts == [] then "" else (if ts[0].Ch? then [ts[0].c] else "") + Chars(ts[1..])
  }

  lemma CharsCons(t: Token, ts: seq<Token>)
    ensures Chars([t] + ts) == (if t.Ch? then [t.c] else "") + Chars(ts)
  {
  }

  lemma TokensAssoc(a: seq<Token>, b: seq<Token>)
    requires a != []
    ensures a == [a[0]] + a[1..] && a + b == [a[0]] + (a[1..] + b)
  {
  }

  lemma {:induction false} CharsConcat(a: seq<Token>, b: seq<Token>)
    ensures Chars(a + b) == Chars(a) + Chars(b)
  {
    if a == [] {
      assert a + b == b;
    } else {
      CharsConcat(a[1..], b);
      CharsCons(a[0], a[1..]);
      CharsCons(a[0], a[1..] + b);
      TokensAssoc(a, b);
      ConcatAssoc(if a[0].Ch? then [a[0].c] else "", Chars(a[1..]), Chars(b));
    }
  }

  lemma AtMarkerToken(ts: seq<Token>)
    requires Lexed(ts)
    ensures AtMarker(Render(ts)) <==> ts != [] && !ts[0].Ch?
  {
    MarkerAtToken(ts, OpenDel);
    MarkerAtToken(ts, CloseDel);
    MarkerAtToken(ts, OpenIns);
    MarkerAtToken(ts, CloseIns);
  }

  lemma {:induction false} StripLeavesChars(ts: seq<Token>)
    requires Lexed(ts)
    ensures StripMarkers(Render(ts)) == Chars(ts)
  {
    AtMarkerToken(ts);
    if ts != [] {
      RenderHead(ts);
      LexedTail(ts);
      StripLeavesChars(ts[1..]);
    }
  }

  lemma CharsAround(a: seq<Token>, m: Token, b: seq<Token>)
    requires !m.Ch?
    ensures Chars(a + [m] + b) == Chars(a) + Chars(b)
  {
    CharsConcat(a + [m], b);
    CharsConcat(a, [m]);
    assert [m][1..] == [] && Chars([m]) == "";
    assert Chars(a) + "" == Chars(a);
  }

  /** Keeping the added text drops no character. */
  lemma {:induction false} KeepingKeepsChars(ts: seq<Token>)
    ensures Chars(PairTok(ts, OpenIns, CloseIns, true)) == Chars(ts)
    decreases |ts|
  {
    if ts != [] {
      var cut := CutTok(ts[1..], CloseIns);
      if ts[0] == OpenIns && cut.Some? {
        var inner, rest := cut.value.0, cut.value.1;
        KeepingKeepsChars(rest);
        CharsConcat(inner, PairTok(rest, OpenIns, CloseIns, true));
        CharsAround(inner, CloseIns, rest);
        assert Chars(ts) == Chars(ts[1..]);
      } else {
        KeepingKeepsChars(ts[1..]);
        var passed := [ts[0]] + PairTok(ts[1..], OpenIns, CloseIns, true);
        assert passed[1..] == PairTok(ts[1..], OpenIns, CloseIns, true);
      }
    }
  }

  /** What is seen of a text: the characters outside removed stretches. */
  function Visible(ts: seq<Token>): string {
    Chars(PairTok(ts, OpenDel, CloseDel, false))
  }

  /** The three passes together, on every text whose other braces form no marker with their neighbours, with markers
      balanced or not. */
  lemma CleanIsVisible(ts: seq<Token>)
    requires Lexed(ts)
    ensures Clean(Render(ts)) == Visible(ts)
  {
    SubIsPairTok(ts, OpenDel, CloseDel, false);
    LexedPairTok(ts, OpenDel, CloseDel, false);
    var kept := PairTok(ts, OpenDel, CloseDel, false);
    SubIsPairTok(kept, OpenIns, CloseIns, true);
    LexedPairTok(kept, OpenIns, CloseIns, true);
    StripLeavesChars(PairTok(kept, OpenIns, CloseIns, true));
    KeepingKeepsChars(kept);
  }

  // ----- what is left -----

  /** No marker occurs in `s`. */
  ghost predicate Unmarked(s: string) {
    !Contains(s, OPEN_DEL) && !Contains(s, CLOSE_DEL) && !Contains(s, OPEN_INS) && !Contains(s, CLOSE_INS)
  }

  /** The same of plain text: no opening brace stands before, and no closing one after, a dash or plus. */
  ghost predicate Loose(s: string) {
    forall i, j :: 0 <= i < j < |s| && j == i + 1 ==> (s[i] == '{' ==> !IsSign(s[j])) && (s[j] == '}' ==> !IsSign(s[i]))
  }

  lemma LooseLacks(s: string, m: Token)
    requires Loose(s) && !m.Ch?
    ensures !Contains(s, TokenText(m))
  {
    MarkChars(m);
    if Contains(s, TokenText(m)) {
      var i := Occurrence(s, TokenText(m));
      assert false;
    }
  }

  lemma LooseUnmarked(s: string)
    requires Loose(s)
    ensures Unmarked(s)
  {
    LooseLacks(s, OpenDel);
    LooseLacks(s, CloseDel);
    LooseLacks(s, OpenIns);
    LooseLacks(s, CloseIns);
  }

  lemma {:induction false} CharsLoose(ts: seq<Token>)
    requires Lexed(ts)
    ensures Loose(Chars(ts))
    ensures Chars(ts) != "" ==> ts != [] && (ts[0] == Ch(Chars(ts)[0]) || (!ts[0].Ch? && Chars(ts)[0] != '}'))
  {
    if ts != [] {
      LexedTail(ts);
      CharsLoose(ts[1..]);
    }
  }

  /** A pass that removes nothing changes nothing. */
  lemma {:induction false} SubShortens(s: string, open: string, close: string, keep: bool)
    requires open != "" && close != ""
    ensures var r := SubPairs(s, open, close, keep); |r| < |s| || r == s
    decreases |s|
  {
    if s != "" {
      var cut := if StartsWith(s, open) then Cut(s[|open|..], close) else None;
      if cut.Some? {
        SubShortens(cut.value.1, open, close, keep);
      } else {
        SubShortens(s[1..], open, close, keep);
        SubSkip(s, open, close, keep);
        assert s == [s[0]] + s[1..];
      }
    }
  }

  lemma ContainsTail(s: string, p: string)
    requires s != "" && !StartsWith(s, p) && Contains(s, p)
    ensures Contains(s[1..], p)
  {
    var i :| 0 <= i <= |s| && StartsWith(s[i..], p);
    assert s[0..] == s;
    assert s[1..][i - 1..] == s[i..];
  }

  lemma UnmarkedTail(s: string)
    requires s != "" && !AtMarker(s) && Unmarked(s[1..])
    ensures Unmarked(s)
  {
    forall m: Token | !m.Ch? ensures !Contains(s, TokenText(m)) {
      if Contains(s, TokenText(m)) {
        ContainsTail(s, TokenText(m));
        assert false;
      }
    }
    LacksAll(s);
  }

  lemma LacksAll(s: string)
    requires forall m: Token :: !m.Ch? ==> !Contains(s, TokenText(m))
    ensures Unmarked(s)
  {
    assert !Contains(s, TokenText(OpenDel)) && !Contains(s, TokenText(CloseDel));
    assert !Contains(s, TokenText(OpenIns)) && !Contains(s, TokenText(CloseIns));
  }

  lemma {:induction false} StripShortens(s: string)
    ensures |StripMarkers(s)| < |s| || (StripMarkers(s) == s && Unmarked(s))
    decreases |s|
  {
    if s == "" {
      LooseUnmarked(s);
    } else if AtMarker(s) {
      StripShortens(s[3..]);
    } else {
      StripShortens(s[1..]);
      assert s == [s[0]] + s[1..];
      if Unmarked(s[1..]) {
        UnmarkedTail(s);
      }
    }
  }

  lemma SliceUnmarked(s: string, lo: nat, hi: nat)
    requires Unmarked(s) && lo <= hi <= |s|
    ensures Unmarked(s[lo..hi])
  {
    forall m: Token | !m.Ch? ensures !Contains(s[lo..hi], TokenText(m)) {
      if Contains(s[lo..hi], TokenText(m)) {
        SliceContains(s, lo, hi, TokenText(m));
        assert false;
      }
    }
    LacksAll(s[lo..hi]);
  }

  lemma UnmarkedStart(s: string, m: Token)
    requires Unmarked(s) && !m.Ch?
    ensures !StartsWith(s, TokenText(m))
  {
    assert s[0..] == s;
    assert StartsWith(s[0..], TokenText(m)) ==> Contains(s, TokenText(m));
  }

  lemma {:induction false} UnmarkedPasses(s: string, open: Token, close: Token, keep: bool)
    requires Unmarked(s) && !open.Ch?
    ensures SubPairs(s, TokenText(open), TokenText(close), keep) == s && StripMarkers(s) == s
  {
    if s != "" {
      UnmarkedStart(s, OpenDel);
      UnmarkedStart(s, CloseDel);
      UnmarkedStart(s, OpenIns);
      UnmarkedStart(s, CloseIns);
      SliceUnmarked(s, 1, |s|);
      assert s[1..|s|] == s[1..];
      UnmarkedPasses(s[1..], open, close, keep);
    }
  }

  /** Cleaning leaves a text as it is if and only if the text holds no marker, whatever other braces it has. */
  lemma CleanFixesIff(s: string)
    ensures Clean(s) == s <==> Unmarked(s)
    ensures Clean(Clean(s)) == Clean(s) <==> Unmarked(Clean(s))
  {
    CleanFixes(s);
    CleanFixes(Clean(s));
  }

  lemma CleanFixes(s: string)
    ensures Clean(s) == s <==> Unmarked(s)
  {
    var deleted := SubPairs(s, OPEN_DEL, CLOSE_DEL, false);
    SubShortens(s, OPEN_DEL, CLOSE_DEL, false);
    SubShortens(deleted, OPEN_INS, CLOSE_INS, true);
    StripShortens(SubPairs(deleted, OPEN_INS, CLOSE_INS, true));
    if Unmarked(s) {
      UnmarkedPasses(s, OpenDel, CloseDel, false);
      UnmarkedPasses(s, OpenIns, CloseIns, true);
    }
  }

  /** Cleaning a text whose other braces form no marker leaves no marker, and cleaning it again changes nothing. */
  lemma CleanLeavesNoMarker(ts: seq<Token>)
    requires Lexed(ts)
    ensures Unmarked(Clean(Render(ts))) && Clean(Clean(Render(ts))) == Clean(Render(ts))
  {
    CleanFixesIff(Render(ts));
    CleanIsVisible(ts);
    LexedPairTok(ts, OpenDel, CloseDel, false);
    CharsLoose(PairTok(ts, OpenDel, CloseDel, false));
    LooseUnmarked(Visible(ts));
  }

  lemma {:induction false} PairTokTokens(ts: seq<Token>, open: Token, close: Token, keep: bool)
    ensures forall t :: t in PairTok(ts, open, close, keep) ==> t in ts
    decreases |ts|
  {
    if ts != [] {
      var cut := CutTok(ts[1..], close);
      if ts[0] == open && cut.Some? {
        assert forall t :: t in cut.value.0 || t in cut.value.1 ==> t in ts[1..];
        PairTokTokens(cut.value.1, open, close, keep);
      } else {
        PairTokTokens(ts[1..], open, close, keep);
      }
    }
  }

  lemma {:induction false} CharsAmong(ts: seq<Token>)
    ensures forall c :: c in Chars(ts) ==> Ch(c) in ts
  {
    if ts != [] {
      CharsAmong(ts[1..]);
    }
  }

  /** Where braces occur only in markers, cleaning leaves no brace at all. */
  lemma CleanLeavesNoBrace(ts: seq<Token>)
    requires forall t :: t in ts && t.Ch? ==> !IsBrace(t.c)
    ensures forall c :: c in Clean(Render(ts)) ==> !IsBrace(c)
  {
    MarkersOnlyLexed(ts);
    CleanIsVisible(ts);
    PairTokTokens(ts, OpenDel, CloseDel, false);
    CharsAmong(PairTok(ts, OpenDel, CloseDel, false));
  }
}
