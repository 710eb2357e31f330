/** The web page's own reading of a redline, a split with one alternation, and when what it shows as plain and
    inserted text is the text the export downloads. */
module RedlineView {
  import opened Options
  import opened Text
  import opened Redline
  import opened RedlineTree

  datatype Span = Deleted(text: string) | Inserted(text: string) | Unchanged(text: string)

  /** The separator the split finds at the start of `s`, and what follows it. */
  function PieceAt(s: string): (r: Option<(string, string)>)
    ensures r.Some? ==> |r.value.1| < |s|
  {
    var del := if StartsWith(s, OPEN_DEL) then Cut(s[3..], CLOSE_DEL) else None;
    if del.Some? then Some((OPEN_DEL + del.value.0 + CLOSE_DEL, del.value.1))
    else
      var ins := if StartsWith(s, OPEN_INS) then Cut(s[3..], CLOSE_INS) else None;
      if ins.Some? then Some((OPEN_INS + ins.value.0 + CLOSE_INS, ins.value.1)) else None
  }

  /** The split: texts between separators alternate with the separators; `plain` has been read already. */
  function Pieces(plain: string, s: string): seq<string>
    decreases |s|
  {
    if s == "" then [plain]
    else match PieceAt(s)
      case Some((piece, rest)) => [plain, piece] + Pieces("", rest)
      case None => Pieces(plain + [s[0]], s[1..])
  }

  predicate Wrapped(p: string, open: string, close: string) {
    |p| >= 6 && StartsWith(p, open) && p[|p| - 3..] == close
  }

  function ShowPiece(p: string): Span {
    if Wrapped(p, OPEN_DEL, CLOSE_DEL) then Deleted(p[3..|p| - 3])
    else if Wrapped(p, OPEN_INS, CLOSE_INS) then Inserted(p[3..|p| - 3])
    else Unchanged(StripMarkers(p))
  }

  function ShowAll(ps: seq<string>): seq<Span> {
    if ps == [] then [] else [ShowPiece(ps[0])] + ShowAll(ps[1..])
  }

  function RenderRedline(text: string): seq<Span> {
    ShowAll(Pieces("", text))
  }

  /** The plain and inserted text shown, in order. */
  function Shown(spans: seq<Span>): string {
    if spans == [] then "" else (if spans[0].Deleted? then "" else spans[0].text) + Shown(spans[1..])
  }

  // ----- the view on tokens -----

  /** The tokens shown: inserted text appears as it stands between its marks. */
  function ViewTok(ts: seq<Token>): seq<Token>
    decreases |ts|
  {
    if ts == [] then []
    else if ts[0] == OpenDel && CutTok(ts[1..], CloseDel).Some? then ViewTok(CutTok(ts[1..], CloseDel).value.1)
    else if ts[0] == OpenIns && CutTok(ts[1..], CloseIns).Some? then
      var (inner, rest) := CutTok(ts[1..], CloseIns).value;
      inner + ViewTok(rest)
    else (if ts[0].Ch? then [ts[0]] else []) + ViewTok(ts[1..])
  }

  /** No pair of marks lies within `plain`, or starts there and ends in `ts`. */
  ghost predicate Unpaired(plain: seq<Token>, ts: seq<Token>, open: Token, close: Token) {
    && (open in plain ==> close !in ts)
    && forall i, j :: 0 <= i < j < |plain| && plain[i] == open ==> plain[j] != close
  }

  lemma {:induction false} RenderSnoc(ts: seq<Token>, t: Token)
    ensures Render(ts + [t]) == Render(ts) + TokenText(t)
  {
    RenderConcat(ts, [t]);
    assert [t][1..] == [];
  }

  lemma {:induction false} RenderNonEmpty(ts: seq<Token>)
    ensures ts == [] <==> Render(ts) == ""
  {
  }

  lemma LastOf(a: string, t: Token)
    ensures var s := a + TokenText(t);
            && s[|s| - 1] == TokenText(t)[|TokenText(t)| - 1]
            && (!t.Ch? ==> s[|s| - 3..] == TokenText(t))
  {
  }

  lemma LastToken(ts: seq<Token>) returns (init: seq<Token>, last: Token)
    requires ts != []
    ensures ts == init + [last]
  {
    init, last := ts[..|ts| - 1], ts[|ts| - 1];
  }

  /** The last character of a token's text tells closing marks from all other tokens. */
  lemma LastChar(t: Token)
    ensures TokenText(t)[|TokenText(t)| - 1] == match t
            case Ch(c) => c
            case OpenDel => '-'
            case OpenIns => '+'
            case _ => '}'
  {
  }

  /** A closing brace of the text itself comes last only behind an ordinary character. */
  lemma LastButOne(init: seq<Token>)
    requires Lexed(init + [Ch('}')]) && init != []
    ensures Render(init) != "" && !IsSign(Render(init)[|Render(init)| - 1])
  {
    LexedPart(init, [Ch('}')]);
    var front, last := LastToken(init);
    RenderSnoc(front, last);
  }

  /** A text that ends in a closing mark ends in that token. */
  lemma EndsAtToken(ts: seq<Token>, m: Token)
    requires Lexed(ts) && (m == CloseDel || m == CloseIns)
    requires |Render(ts)| >= 3 && Render(ts)[|Render(ts)| - 3..] == TokenText(m)
    ensures ts != [] && ts[|ts| - 1] == m
  {
    var s := Render(ts);
    assert s[|s| - 1] == s[|s| - 3..][2] && s[|s| - 2] == s[|s| - 3..][1];
    RenderNonEmpty(ts);
    var init, last := LastToken(ts);
    RenderSnoc(init, last);
    LastOf(Render(init), last);
    LastChar(last);
    if last == Ch('}') {
      assert Render(init) == s[..|s| - 1];
      RenderNonEmpty(init);
      LastButOne(init);
      assert false;
    }
    assert TokenText(last)[0] == TokenText(m)[0];
  }

  lemma PlainNotWrapped(plain: seq<Token>, open: Token, close: Token)
    requires Lexed(plain) && Unpaired(plain, [], open, close)
    requires (open == OpenDel && close == CloseDel) || (open == OpenIns && close == CloseIns)
    ensures !Wrapped(Render(plain), TokenText(open), TokenText(close))
  {
    if Wrapped(Render(plain), TokenText(open), TokenText(close)) {
      MarkerAtToken(plain, open);
      EndsAtToken(plain, close);
      assert false;
    }
  }

  /** What the page shows of one split-off text. */
  lemma PlainShown(plain: seq<Token>)
    requires Lexed(plain)
    requires Unpaired(plain, [], OpenDel, CloseDel) && Unpaired(plain, [], OpenIns, CloseIns)
    ensures ShowPiece(Render(plain)) == Unchanged(Chars(plain))
  {
    PlainNotWrapped(plain, OpenDel, CloseDel);
    PlainNotWrapped(plain, OpenIns, CloseIns);
    StripLeavesChars(plain);
  }

  lemma PieceShown(open: string, inner: string, close: string)
    requires (open == OPEN_DEL && close == CLOSE_DEL) || (open == OPEN_INS && close == CLOSE_INS)
    ensures ShowPiece(open + inner + close) == if open == OPEN_DEL then Deleted(inner) else Inserted(inner)
  {
  }

  /** Where the split finds a separator in rendered text. */
  lemma PieceAtToken(ts: seq<Token>)
    requires Lexed(ts) && ts != []
    ensures PieceAt(Render(ts))
         == if ts[0] == OpenDel && CutTok(ts[1..], CloseDel).Some?
            then var (a, b) := CutTok(ts[1..], CloseDel).value; Some((OPEN_DEL + Render(a) + CLOSE_DEL, Render(b)))
            else if ts[0] == OpenIns && CutTok(ts[1..], CloseIns).Some?
            then var (a, b) := CutTok(ts[1..], CloseIns).value; Some((OPEN_INS + Render(a) + CLOSE_INS, Render(b)))
            else None
  {
    RenderHead(ts);
    MarkerAtToken(ts, OpenDel);
    MarkerAtToken(ts, OpenIns);
    CutFindsToken(ts[1..], CloseDel);
    CutFindsToken(ts[1..], CloseIns);
  }

  lemma NoPieceInside(ts: seq<Token>, k: nat)
    requires Lexed(ts) && ts != [] && !ts[0].Ch? && 1 <= k <= 2
    ensures PieceAt(Render(ts)[k..]) == None
  {
    NoMarkerInside(ts, OpenDel, k);
    NoMarkerInside(ts, OpenIns, k);
  }

  lemma PieceSkip(plain: string, s: string)
    requires s != "" && PieceAt(s) == None
    ensures Pieces(plain, s) == Pieces(plain + [s[0]], s[1..])
  {
  }

  lemma PieceSkipThree(plain: string, s: string)
    requires |s| >= 3 && PieceAt(s) == None && PieceAt(s[1..]) == None && PieceAt(s[2..]) == None
    ensures Pieces(plain, s) == Pieces(plain + s[..3], s[3..])
  {
    assert s[1..][1..] == s[2..] && s[2..][1..] == s[3..];
    PieceSkip(plain, s);
    PieceSkip(plain + [s[0]], s[1..]);
    PieceSkip(plain + [s[0]] + [s[1]], s[2..]);
    assert plain + [s[0]] + [s[1]] + [s[2]] == plain + s[..3];
  }

  /** A token that starts no separator joins the text being read. */
  lemma PiecesPass(plain: seq<Token>, ts: seq<Token>)
    requires Lexed(ts) && ts != [] && PieceAt(Render(ts)) == None
    ensures Pieces(Render(plain), Render(ts)) == Pieces(Render(plain + [ts[0]]), Render(ts[1..]))
  {
    RenderHead(ts);
    RenderSnoc(plain, ts[0]);
    var s, p := Render(ts), Render(plain);
    if !ts[0].Ch? {
      NoPieceInside(ts, 1);
      NoPieceInside(ts, 2);
      PieceSkipThree(p, s);
    }
  }

  // ----- the spans on tokens -----

  /** The spans the page makes of the tokens, when `plain` has been read already: the texts between separators, empty
      ones too, alternate with what the separators hold. */
  function SpansTok(plain: seq<Token>, ts: seq<Token>): seq<Span>
    decreases |ts|
  {
    if ts == [] then [Unchanged(Chars(plain))]
    else if ts[0] == OpenDel && CutTok(ts[1..], CloseDel).Some? then
      var (inner, rest) := CutTok(ts[1..], CloseDel).value;
      [Unchanged(Chars(plain)), Deleted(Render(inner))] + SpansTok([], rest)
    else if ts[0] == OpenIns && CutTok(ts[1..], CloseIns).Some? then
      var (inner, rest) := CutTok(ts[1..], CloseIns).value;
      [Unchanged(Chars(plain)), Inserted(Render(inner))] + SpansTok([], rest)
    else SpansTok(plain + [ts[0]], ts[1..])
  }

  ghost predicate SpansAgree(plain: seq<Token>, ts: seq<Token>) {
    ShowAll(Pieces(Render(plain), Render(ts))) == SpansTok(plain, ts)
  }

  lemma UnpairedSplit(plain: seq<Token>, ts: seq<Token>, open: Token, close: Token)
    requires Unpaired(plain, ts, open, close)
    ensures Unpaired(plain, [], open, close)
  {
  }

  lemma UnpairedSnoc(plain: seq<Token>, ts: seq<Token>, open: Token, close: Token)
    requires Unpaired(plain, ts, open, close) && ts != [] && open != close
    requires ts[0] == open ==> close !in ts[1..]
    ensures Unpaired(plain + [ts[0]], ts[1..], open, close)
  {
  }

  lemma SeparatorSplit(plain: seq<Token>, ts: seq<Token>, inner: seq<Token>, rest: seq<Token>, del: bool)
    requires Lexed(ts) && ts != [] && ts[0] == if del then OpenDel else OpenIns
    requires CutTok(ts[1..], if del then CloseDel else CloseIns) == Some((inner, rest))
    ensures Pieces(Render(plain), Render(ts))
         == [Render(plain), if del then OPEN_DEL + Render(inner) + CLOSE_DEL else OPEN_INS + Render(inner) + CLOSE_INS]
            + Pieces("", Render(rest))
  {
    PieceAtToken(ts);
    RenderNonEmpty(ts);
  }

  lemma SeparatorShown(inner: seq<Token>, del: bool)
    ensures ShowPiece(if del then OPEN_DEL + Render(inner) + CLOSE_DEL else OPEN_INS + Render(inner) + CLOSE_INS)
         == if del then Deleted(Render(inner)) else Inserted(Render(inner))
  {
    PieceShown(OPEN_DEL, Render(inner), CLOSE_DEL);
    PieceShown(OPEN_INS, Render(inner), CLOSE_INS);
    assert OPEN_DEL[1] != OPEN_INS[1];
  }

  lemma ShowTwo(a: string, b: string, rest: seq<string>)
    ensures ShowAll([a, b] + rest) == [ShowPiece(a), ShowPiece(b)] + ShowAll(rest)
  {
    assert ([a, b] + rest)[1..] == [b] + rest;
    assert ([b] + rest)[1..] == rest;
  }

  lemma ShowOne(a: string)
    ensures ShowAll([a]) == [ShowPiece(a)]
  {
    assert [a][1..] == [];
  }

  lemma SeparatorAgrees(plain: seq<Token>, ts: seq<Token>, inner: seq<Token>, rest: seq<Token>, del: bool)
    requires Lexed(plain) && Lexed(ts) && ts != []
    requires Unpaired(plain, [], OpenDel, CloseDel) && Unpaired(plain, [], OpenIns, CloseIns)
    requires ts[0] == if del then OpenDel else OpenIns
    requires CutTok(ts[1..], if del then CloseDel else CloseIns) == Some((inner, rest))
    requires SpansAgree([], rest)
    ensures SpansAgree(plain, ts)
  {
    var piece := if del then OPEN_DEL + Render(inner) + CLOSE_DEL else OPEN_INS + Render(inner) + CLOSE_INS;
    SeparatorSplit(plain, ts, inner, rest, del);
    ShowTwo(Render(plain), piece, Pieces("", Render(rest)));
    PlainShown(plain);
    SeparatorShown(inner, del);
  }

  lemma PassAgrees(plain: seq<Token>, ts: seq<Token>)
    requires Lexed(ts) && ts != [] && SpansAgree(plain + [ts[0]], ts[1..])
    requires ts[0] == OpenDel ==> CutTok(ts[1..], CloseDel).None?
    requires ts[0] == OpenIns ==> CutTok(ts[1..], CloseIns).None?
    ensures SpansAgree(plain, ts)
  {
    assert PieceAt(Render(ts)) == None by { PieceAtToken(ts); }
    PiecesPass(plain, ts);
  }

  lemma RestLexed(plain: seq<Token>, ts: seq<Token>, m: Token)
    requires Lexed(plain + ts) && ts != [] && !ts[0].Ch? && !m.Ch? && CutTok(ts[1..], m).Some?
    ensures Lexed([] + CutTok(ts[1..], m).value.1)
  {
    LexedPart(plain, ts);
    assert ts == [ts[0]] + ts[1..];
    var inner, rest := CutTok(ts[1..], m).value.0, CutTok(ts[1..], m).value.1;
    CutEdges(ts[0], ts[1..], m, inner, rest);
    assert [] + rest == rest;
  }

  /** Every span the page makes of the text, with its mark and its text, is that of the tokens. */
  lemma {:induction false} SpansAreTok(plain: seq<Token>, ts: seq<Token>)
    requires Lexed(plain + ts)
    requires Unpaired(plain, ts, OpenDel, CloseDel) && Unpaired(plain, ts, OpenIns, CloseIns)
    ensures SpansAgree(plain, ts)
    decreases |ts|
  {
    LexedPart(plain, ts);
    UnpairedSplit(plain, ts, OpenDel, CloseDel);
    UnpairedSplit(plain, ts, OpenIns, CloseIns);
    if ts == [] {
      PlainShown(plain);
      ShowOne(Render(plain));
    } else {
      var dels, inss := CutTok(ts[1..], CloseDel), CutTok(ts[1..], CloseIns);
      if ts[0] == OpenDel && dels.Some? {
        RestLexed(plain, ts, CloseDel);
        SpansAreTok([], dels.value.1);
        SeparatorAgrees(plain, ts, dels.value.0, dels.value.1, true);
      } else if ts[0] == OpenIns && inss.Some? {
        RestLexed(plain, ts, CloseIns);
        SpansAreTok([], inss.value.1);
        SeparatorAgrees(plain, ts, inss.value.0, inss.value.1, false);
      } else {
        UnpairedSnoc(plain, ts, OpenDel, CloseDel);
        UnpairedSnoc(plain, ts, OpenIns, CloseIns);
        assert plain + [ts[0]] + ts[1..] == plain + ts;
        SpansAreTok(plain + [ts[0]], ts[1..]);
        PassAgrees(plain, ts);
      }
    }
  }

  // ----- the text in the spans -----

  lemma ShownTwo(a: Span, b: Span, rest: seq<Span>)
    ensures Shown([a, b] + rest)
         == (if a.Deleted? then "" else a.text) + ((if b.Deleted? then "" else b.text) + Shown(rest))
  {
    assert ([a, b] + rest)[1..] == [b] + rest;
    assert ([b] + rest)[1..] == rest;
  }

  lemma PassViewed(ts: seq<Token>)
    requires ts != []
    requires ts[0] == OpenDel ==> CutTok(ts[1..], CloseDel).None?
    requires ts[0] == OpenIns ==> CutTok(ts[1..], CloseIns).None?
    ensures Render(ViewTok(ts)) == Chars([ts[0]]) + Render(ViewTok(ts[1..]))
  {
    var t, tail := ts[0], ViewTok(ts[1..]);
    ChOrNothing(t);
    RenderConcat(if t.Ch? then [t] else [], tail);
    assert ViewTok(ts) == (if t.Ch? then [t] else []) + tail;
  }

  lemma ChOrNothing(t: Token)
    ensures Render(if t.Ch? then [t] else []) == Chars([t])
  {
  }

  lemma {:induction false} SpansShow(plain: seq<Token>, ts: seq<Token>)
    ensures Shown(SpansTok(plain, ts)) == Chars(plain) + Render(ViewTok(ts))
    decreases |ts|
  {
    if ts == [] {
      assert [Unchanged(Chars(plain))][1..] == [];
    } else {
      var dels, inss := CutTok(ts[1..], CloseDel), CutTok(ts[1..], CloseIns);
      if ts[0] == OpenDel && dels.Some? {
        var (inner, rest) := dels.value;
        SpansShow([], rest);
        ShownTwo(Unchanged(Chars(plain)), Deleted(Render(inner)), SpansTok([], rest));
      } else if ts[0] == OpenIns && inss.Some? {
        var (inner, rest) := inss.value;
        SpansShow([], rest);
        ShownTwo(Unchanged(Chars(plain)), Inserted(Render(inner)), SpansTok([], rest));
        RenderConcat(inner, ViewTok(rest));
      } else {
        SpansShow(plain + [ts[0]], ts[1..]);
        CharsConcat(plain, [ts[0]]);
        PassViewed(ts);
        ConcatAssoc(Chars(plain), Chars([ts[0]]), Render(ViewTok(ts[1..])));
      }
    }
  }

  /** The text the page shows as plain or inserted is that of the tokens it shows. */
  lemma ViewIsViewTok(plain: seq<Token>, ts: seq<Token>)
    requires Lexed(plain + ts)
    requires Unpaired(plain, ts, OpenDel, CloseDel) && Unpaired(plain, ts, OpenIns, CloseIns)
    ensures Shown(ShowAll(Pieces(Render(plain), Render(ts)))) == Chars(plain) + Render(ViewTok(ts))
  {
    SpansAreTok(plain, ts);
    SpansShow(plain, ts);
  }

  // ----- when the page shows what the export downloads -----

  predicate OnlyText(r: Tree) {
    match r
    case Stop => true
    case Plain(_, rest) => OnlyText(rest)
    case Ins(_, _) => false
    case Del(_, _) => false
  }

  /** Every insertion that starts where text is not being dropped holds nothing but text. */
  predicate FlatInsertions(r: Tree, dropping: bool) {
    match r
    case Stop => true
    case Plain(_, rest) => FlatInsertions(rest, dropping)
    case Ins(body, rest) =>
      (if dropping then FlatInsertions(body, true) else OnlyText(body))
        && FlatInsertions(rest, dropping && !HasDel(body))
    case Del(body, rest) => FlatInsertions(body, true) && FlatInsertions(rest, false)
  }

  predicate Marked(ts: seq<Token>) {
    exists t :: t in ts && !t.Ch?
  }

  function View(ts: seq<Token>, dropping: bool): seq<Token> {
    if dropping then match CutTok(ts, CloseDel) case Some((_, after)) => ViewTok(after) case None => []
    else ViewTok(ts)
  }

  /** The page shows of the tree what the scan lets through and then reads on in `k`, or else it shows a mark. */
  ghost predicate Views(r: Tree, k: seq<Token>, dropping: bool) {
    if FlatInsertions(r, dropping)
    then View(Toks(r, k), dropping) == Chs(Survive(r, dropping)) + View(k, dropping && !HasDel(r))
    else Marked(View(Toks(r, k), dropping))
  }

  lemma ViewPasses(t: Token, ts: seq<Token>)
    requires t == OpenDel ==> CloseDel !in ts
    requires t == OpenIns ==> CloseIns !in ts
    ensures ViewTok([t] + ts) == (if t.Ch? then [t] else []) + ViewTok(ts)
  {
  }

  lemma {:induction false} ViewChars(text: string, ts: seq<Token>, dropping: bool)
    ensures View(Chs(text) + ts, dropping) == (if dropping then [] else Chs(text)) + View(ts, dropping)
  {
    if text == "" {
      assert Chs(text) + ts == ts;
    } else {
      assert Chs(text) + ts == [Ch(text[0])] + (Chs(text[1..]) + ts);
      ViewChars(text[1..], ts, dropping);
      CutCons(Ch(text[0]), Chs(text[1..]) + ts, CloseDel);
      ViewPasses(Ch(text[0]), Chs(text[1..]) + ts);
    }
  }

  lemma ViewClose(t: Token, ts: seq<Token>, dropping: bool)
    requires t == CloseDel || t == CloseIns
    ensures View([t] + ts, dropping) == View(ts, dropping && t != CloseDel)
  {
  }

  lemma MarkedSuffix(a: seq<Token>, b: seq<Token>)
    requires Marked(b)
    ensures Marked(a + b)
  {
  }

  lemma ViewsPlain(text: string, rest: Tree, k: seq<Token>, dropping: bool)
    requires Views(rest, k, dropping)
    ensures Views(Plain(text, rest), k, dropping)
  {
    ViewChars(text, Toks(rest, k), dropping);
    var shown := if dropping then "" else text;
    if FlatInsertions(rest, dropping) {
      ViewsJoin(shown, Survive(rest, dropping), View(Toks(rest, k), dropping),
                Chs(shown) + View(Toks(rest, k), dropping),
                View(k, dropping && !HasDel(rest)));
    } else {
      MarkedSuffix(Chs(shown), View(Toks(rest, k), dropping));
    }
  }

  /** The two halves of a tree, one after the other. */
  lemma ViewsJoin(a: string, b: string, middle: seq<Token>, whole: seq<Token>, end: seq<Token>)
    requires whole == Chs(a) + middle && middle == Chs(b) + end
    ensures whole == Chs(a + b) + end
  {
    ChsConcat(a, b);
  }

  lemma ViewsDel(body: Tree, rest: Tree, k: seq<Token>, dropping: bool)
    requires Views(body, [CloseDel] + Toks(rest, k), true) && Views(rest, k, false)
    ensures Views(Del(body, rest), k, dropping)
  {
    var after := Toks(rest, k);
    var inside := Toks(body, [CloseDel] + after);
    ContinuationStays(body, [CloseDel] + after, CloseDel);
    CutCons(OpenDel, inside, CloseDel);
    assert ([OpenDel] + inside)[1..] == inside;
    assert View([OpenDel] + inside, dropping) == View(inside, true);
    ViewClose(CloseDel, after, !HasDel(body));
    if FlatInsertions(body, true) {
      if FlatInsertions(rest, false) {
        ViewsJoin(Survive(body, true), Survive(rest, false), View(after, false), View(inside, true), View(k, false));
      } else {
        MarkedSuffix(Chs(Survive(body, true)), View(after, false));
      }
    }
  }

  lemma ViewsInsDropping(body: Tree, rest: Tree, k: seq<Token>)
    requires Views(body, [CloseIns] + Toks(rest, k), true) && Views(rest, k, !HasDel(body))
    ensures Views(Ins(body, rest), k, true)
  {
    var after := Toks(rest, k);
    var inside := Toks(body, [CloseIns] + after);
    CutCons(OpenIns, inside, CloseDel);
    assert View([OpenIns] + inside, true) == View(inside, true);
    ViewClose(CloseIns, after, !HasDel(body));
    if FlatInsertions(body, true) {
      if FlatInsertions(rest, !HasDel(body)) {
        ViewsJoin(Survive(body, true), Survive(rest, !HasDel(body)), View(after, !HasDel(body)), View(inside, true),
                  View(k, !HasDel(body) && !HasDel(rest)));
      } else {
        MarkedSuffix(Chs(Survive(body, true)), View(after, !HasDel(body)));
      }
    }
  }

  lemma {:induction false} TextBody(body: Tree, k: seq<Token>)
    requires OnlyText(body)
    ensures Toks(body, k) == Chs(Survive(body, false)) + k && !HasDel(body)
    decreases body
  {
    match body
    case Stop =>
      assert Chs("") + k == k;
    case Plain(text, rest) =>
      TextBody(rest, k);
      ViewsJoin(text, Survive(rest, false), Toks(rest, k), Toks(body, k), k);
  }

  lemma {:induction false} CutAfterChars(text: string, m: Token, k: seq<Token>)
    requires !m.Ch?
    ensures CutTok(Chs(text) + [m] + k, m) == Some((Chs(text), k))
  {
    if text == "" {
      assert Chs(text) + [m] + k == [m] + k;
      CutCons(m, k, m);
    } else {
      CutAfterChars(text[1..], m, k);
      assert Chs(text) + [m] + k == [Ch(text[0])] + (Chs(text[1..]) + [m] + k);
      CutCons(Ch(text[0]), Chs(text[1..]) + [m] + k, m);
    }
  }

  lemma MarkedFirst(t: Token, ts: seq<Token>)
    requires !t.Ch? && t != CloseIns && CutTok([t] + ts, CloseIns).Some?
    ensures Marked(CutTok([t] + ts, CloseIns).value.0)
  {
  }

  /** A body that is not only text opens a mark before the first insertion ends. */
  lemma {:induction false} MarkBeforeEnd(body: Tree, k: seq<Token>)
    requires !OnlyText(body) && CutTok(Toks(body, k), CloseIns).Some?
    ensures Marked(CutTok(Toks(body, k), CloseIns).value.0)
    decreases body, 0
  {
    match body
    case Plain(text, rest) => CutCharsMarked(text, rest, k);
    case Ins(b, r) => MarkedFirst(OpenIns, Toks(b, [CloseIns] + Toks(r, k)));
    case Del(b, r) => MarkedFirst(OpenDel, Toks(b, [CloseDel] + Toks(r, k)));
  }

  lemma {:induction false} CutCharsMarked(text: string, rest: Tree, k: seq<Token>)
    requires !OnlyText(rest) && CutTok(Chs(text) + Toks(rest, k), CloseIns).Some?
    ensures Marked(CutTok(Chs(text) + Toks(rest, k), CloseIns).value.0)
    decreases rest, |text| + 1
  {
    var tail := Toks(rest, k);
    if text == "" {
      assert Chs(text) + tail == tail;
      MarkBeforeEnd(rest, k);
    } else {
      assert Chs(text) + tail == [Ch(text[0])] + (Chs(text[1..]) + tail);
      CutCons(Ch(text[0]), Chs(text[1..]) + tail, CloseIns);
      CutCharsMarked(text[1..], rest, k);
      MarkedSuffix([Ch(text[0])], CutTok(Chs(text[1..]) + tail, CloseIns).value.0);
    }
  }

  lemma TokensRegroup(a: seq<Token>, b: seq<Token>, c: seq<Token>)
    ensures a + (b + c) == a + b + c
  {
  }

  lemma TextShows(body: Tree, after: seq<Token>)
    requires OnlyText(body)
    ensures View([OpenIns] + Toks(body, [CloseIns] + after), false) == Chs(Survive(body, false)) + ViewTok(after)
  {
    TextBody(body, [CloseIns] + after);
    InsertionShows(Survive(body, false), after);
    TokensRegroup(Chs(Survive(body, false)), [CloseIns], after);
  }

  lemma InsertionShows(text: string, after: seq<Token>)
    ensures View([OpenIns] + (Chs(text) + [CloseIns] + after), false) == Chs(text) + ViewTok(after)
  {
    CutAfterChars(text, CloseIns, after);
    ViewOpens(Chs(text) + [CloseIns] + after);
  }

  lemma ViewsTextShown(body: Tree, rest: Tree, k: seq<Token>)
    requires OnlyText(body) && Views(rest, k, false)
    ensures Views(Ins(body, rest), k, false)
  {
    var after, text := Toks(rest, k), Survive(body, false);
    TextShows(body, after);
    var shown := View(Toks(Ins(body, rest), k), false);
    assert shown == Chs(text) + View(after, false);
    if FlatInsertions(rest, false) {
      ViewsJoin(text, Survive(rest, false), View(after, false), shown, View(k, false));
    } else {
      MarkedSuffix(Chs(text), View(after, false));
    }
  }

  lemma ViewsMarkShown(body: Tree, rest: Tree, k: seq<Token>)
    requires !OnlyText(body)
    ensures Views(Ins(body, rest), k, false)
  {
    var after := Toks(rest, k);
    var inside := Toks(body, [CloseIns] + after);
    ContinuationStays(body, [CloseIns] + after, CloseIns);
    ViewOpens(inside);
    MarkBeforeEnd(body, [CloseIns] + after);
    var cut := CutTok(inside, CloseIns).value;
    var t :| t in cut.0 && !t.Ch?;
    assert t in cut.0 + ViewTok(cut.1);
  }

  /** What an insertion shows: the tokens up to its end as they stand, then the rest. */
  lemma ViewOpens(inside: seq<Token>)
    requires CutTok(inside, CloseIns).Some?
    ensures var cut := CutTok(inside, CloseIns).value;
            View([OpenIns] + inside, false) == cut.0 + ViewTok(cut.1)
  {
  }

  lemma {:induction false} ViewTree(r: Tree, k: seq<Token>, dropping: bool)
    ensures Views(r, k, dropping)
    decreases r
  {
    match r
    case Stop =>
      assert Chs("") + View(k, dropping) == View(k, dropping);
    case Plain(text, rest) =>
      ViewTree(rest, k, dropping);
      ViewsPlain(text, rest, k, dropping);
    case Ins(body, rest) =>
      ViewTree(rest, k, dropping && !HasDel(body));
      if dropping {
        ViewTree(body, [CloseIns] + Toks(rest, k), true);
        ViewsInsDropping(body, rest, k);
      } else {
        if OnlyText(body) {
          ViewsTextShown(body, rest, k);
        } else {
          ViewsMarkShown(body, rest, k);
        }
      }
    case Del(body, rest) =>
      ViewTree(body, [CloseDel] + Toks(rest, k), true);
      ViewTree(rest, k, false);
      ViewsDel(body, rest, k, dropping);
  }

  lemma MarkShows(ts: seq<Token>)
    requires Marked(ts)
    ensures !Unmarked(Render(ts))
  {
    var t :| t in ts && !t.Ch?;
    var i :| 0 <= i < |ts| && ts[i] == t;
    assert ts == ts[..i] + ([t] + ts[i + 1..]);
    RenderConcat(ts[..i], [t] + ts[i + 1..]);
    RenderCons(t, ts[i + 1..]);
    var before, after := Render(ts[..i]), Render(ts[i + 1..]);
    assert Render(ts)[|before|..][..3] == TokenText(t);
    assert StartsWith(Render(ts)[|before|..], TokenText(t));
  }

  /** The page's spans for any tame redline. */
  lemma PageSpans(r: Tree)
    requires Tame(r)
    ensures RenderRedline(Print(r)) == SpansTok([], Toks(r, []))
  {
    var ts := Toks(r, []);
    PrintIsRender(r, []);
    assert Print(r) + "" == Print(r);
    ToksLexed(r, []);
    assert [] + ts == ts;
    SpansAreTok([], ts);
  }

  lemma PageShowsTokens(r: Tree)
    requires Tame(r)
    ensures Shown(RenderRedline(Print(r))) == Render(ViewTok(Toks(r, [])))
  {
    PageSpans(r);
    SpansShow([], Toks(r, []));
  }

  lemma FlatShows(r: Tree)
    requires FlatInsertions(r, false)
    ensures Render(ViewTok(Toks(r, []))) == Survive(r, false)
  {
    ViewTree(r, [], false);
    ChsRender(Survive(r, false));
    assert Chs(Survive(r, false)) + [] == Chs(Survive(r, false));
  }

  /** The page and the export agree on a redline if and only if every insertion that starts outside removed
      stretches is flat; in every other redline the page shows a mark the export drops. */
  lemma PageAgreesIff(r: Tree)
    requires Tame(r)
    ensures Shown(RenderRedline(Print(r))) == Clean(Print(r)) <==> FlatInsertions(r, false)
  {
    PageShowsTokens(r);
    CleanTree(r);
    if FlatInsertions(r, false) {
      FlatShows(r);
    } else {
      ViewTree(r, [], false);
      MarkShows(ViewTok(Toks(r, [])));
    }
  }

  /** Neither insertions nor deletions hold further marks. */
  predicate Flat(r: Tree) {
    match r
    case Stop => true
    case Plain(_, rest) => Flat(rest)
    case Ins(body, rest) => OnlyText(body) && Flat(rest)
    case Del(body, rest) => OnlyText(body) && Flat(rest)
  }

  lemma {:induction false} FlatIsFlat(r: Tree)
    requires Flat(r)
    ensures FlatInsertions(r, false) && NoNestedDel(r)
  {
    match r
    case Stop =>
    case Plain(_, rest) => FlatIsFlat(rest);
    case Ins(body, rest) =>
      OnlyTextIsFlat(body);
      FlatIsFlat(rest);
    case Del(body, rest) =>
      OnlyTextIsFlat(body);
      FlatIsFlat(rest);
  }

  lemma {:induction false} OnlyTextIsFlat(r: Tree)
    requires OnlyText(r)
    ensures FlatInsertions(r, true) && !HasDel(r) && NoNestedDel(r)
  {
    match r
    case Stop =>
    case Plain(_, rest) => OnlyTextIsFlat(rest);
  }

  /** A flat redline read off its tree: each deletion as removed and each insertion as added text, with the whole plain
      text before, between and after them. */
  function ReadOff(plain: string, r: Tree): seq<Span>
    decreases r
  {
    match r
    case Stop => [Unchanged(plain)]
    case Plain(text, rest) => ReadOff(plain + text, rest)
    case Ins(body, rest) => [Unchanged(plain), Inserted(Print(body))] + ReadOff("", rest)
    case Del(body, rest) => [Unchanged(plain), Deleted(Print(body))] + ReadOff("", rest)
  }

  lemma {:induction false} SpansTextFirst(plain: seq<Token>, text: string, k: seq<Token>)
    ensures SpansTok(plain, Chs(text) + k) == SpansTok(plain + Chs(text), k)
    decreases |text|
  {
    if text == "" {
      assert Chs(text) + k == k && plain + Chs(text) == plain;
    } else {
      SpansTextFirst(plain + [Ch(text[0])], text[1..], k);
      assert Chs(text) + k == [Ch(text[0])] + (Chs(text[1..]) + k);
      assert plain + [Ch(text[0])] + Chs(text[1..]) == plain + Chs(text);
    }
  }

  lemma SpansOpened(plain: seq<Token>, inside: seq<Token>, inner: seq<Token>, rest: seq<Token>, del: bool)
    requires CutTok(inside, if del then CloseDel else CloseIns) == Some((inner, rest))
    ensures SpansTok(plain, [if del then OpenDel else OpenIns] + inside)
         == [Unchanged(Chars(plain)), if del then Deleted(Render(inner)) else Inserted(Render(inner))]
            + SpansTok([], rest)
  {
    var ts := [if del then OpenDel else OpenIns] + inside;
    assert ts[1..] == inside;
  }

  lemma TextCut(body: Tree, close: Token, after: seq<Token>)
    requires OnlyText(body) && !close.Ch?
    ensures CutTok(Toks(body, [close] + after), close) == Some((Chs(Print(body)), after))
  {
    TextIsPrint(body);
    TextBody(body, [close] + after);
    CutAfterChars(Print(body), close, after);
    TokensRegroup(Chs(Print(body)), [close], after);
  }

  /** One marked text in front of the rest. */
  lemma SpansMarked(plain: seq<Token>, body: Tree, after: seq<Token>, del: bool)
    requires OnlyText(body)
    ensures var open, close := if del then OpenDel else OpenIns, if del then CloseDel else CloseIns;
            SpansTok(plain, [open] + Toks(body, [close] + after))
            == [Unchanged(Chars(plain)), if del then Deleted(Print(body)) else Inserted(Print(body))]
               + SpansTok([], after)
  {
    var close := if del then CloseDel else CloseIns;
    TextCut(body, close, after);
    ChsRender(Print(body));
    SpansOpened(plain, Toks(body, [close] + after), Chs(Print(body)), after, del);
  }

  lemma {:induction false} TextIsPrint(r: Tree)
    requires OnlyText(r)
    ensures Survive(r, false) == Print(r)
  {
    match r
    case Stop =>
    case Plain(_, rest) => TextIsPrint(rest);
  }

  lemma {:induction false} FlatSpans(plain: string, r: Tree)
    requires Flat(r)
    ensures SpansTok(Chs(plain), Toks(r, [])) == ReadOff(plain, r)
    decreases r
  {
    ChsRender(plain);
    match r
    case Stop =>
    case Plain(text, rest) =>
      FlatSpans(plain + text, rest);
      SpansTextFirst(Chs(plain), text, Toks(rest, []));
      ChsConcat(plain, text);
    case Ins(body, rest) =>
      FlatSpans("", rest);
      SpansMarked(Chs(plain), body, Toks(rest, []), false);
    case Del(body, rest) =>
      FlatSpans("", rest);
      SpansMarked(Chs(plain), body, Toks(rest, []), true);
  }

  /** The page shows a flat redline exactly as it is read off the tree: every deletion, insertion and plain text, with
      its own mark and text, in order. */
  lemma FlatRedlineRendered(r: Tree)
    requires Tame(r) && Flat(r)
    ensures RenderRedline(Print(r)) == ReadOff("", r)
  {
    PageSpans(r);
    FlatSpans("", r);
  }

  /** For a flat redline the page shows, in order, exactly the accepted text the export downloads. */
  lemma FlatRedlineAgrees(r: Tree)
    requires Tame(r) && Flat(r)
    ensures Shown(RenderRedline(Print(r))) == Clean(Print(r)) == AcceptAll(r)
  {
    FlatIsFlat(r);
    PageAgreesIff(r);
    CleanIsAcceptAll(r);
  }
}
