/** Redlines as trees of insertions and deletions: what accepting the printed tree gives, and when that is the
    text with every insertion kept and every deletion dropped. */
module RedlineTree {
  import opened Options
  import opened Text
  import opened Redline

  datatype Tree =
    | Stop
    | Plain(text: string, rest: Tree)
    | Ins(body: Tree, rest: Tree)
    | Del(body: Tree, rest: Tree)

  /** The braces of `text` can form no marker, neither inside it nor with what comes before or after it. */
  ghost predicate Apart(text: string) {
    Loose(text) && (text != "" ==> text[0] != '}' && text[|text| - 1] != '{')
  }

  /** The plain texts of the tree may have braces of their own, such as `{Company}`, as long as they stand apart. */
  ghost predicate Tame(r: Tree) {
    match r
    case Stop => true
    case Plain(text, rest) => Apart(text) && Tame(rest)
    case Ins(body, rest) => Tame(body) && Tame(rest)
    case Del(body, rest) => Tame(body) && Tame(rest)
  }

  lemma NoBracesApart(text: string)
    requires forall c :: c in text ==> !IsBrace(c)
    ensures Apart(text)
  {
    assert forall i :: 0 <= i < |text| ==> text[i] in text;
  }

  /** No plain text has a brace. */
  predicate BraceFree(r: Tree) {
    match r
    case Stop => true
    case Plain(text, rest) => (forall c :: c in text ==> !IsBrace(c)) && BraceFree(rest)
    case Ins(body, rest) => BraceFree(body) && BraceFree(rest)
    case Del(body, rest) => BraceFree(body) && BraceFree(rest)
  }

  function Print(r: Tree): string {
    match r
    case Stop => ""
    case Plain(text, rest) => text + Print(rest)
    case Ins(body, rest) => OPEN_INS + Print(body) + CLOSE_INS + Print(rest)
    case Del(body, rest) => OPEN_DEL + Print(body) + CLOSE_DEL + Print(rest)
  }

  /** Every change accepted: insertions kept at any depth, deletions dropped with all they hold. */
  function AcceptAll(r: Tree): string {
    match r
    case Stop => ""
    case Plain(text, rest) => text + AcceptAll(rest)
    case Ins(body, rest) => AcceptAll(body) + AcceptAll(rest)
    case Del(_, rest) => AcceptAll(rest)
  }

  predicate HasDel(r: Tree) {
    match r
    case Stop => false
    case Plain(_, rest) => HasDel(rest)
    case Ins(body, rest) => HasDel(body) || HasDel(rest)
    case Del(_, _) => true
  }

  /** What a scan lets through that drops text from the first mark of a deletion to the next end of one:
      `dropping` says whether such a stretch is open.  The end of an inner deletion closes it. */
  function Survive(r: Tree, dropping: bool): string {
    match r
    case Stop => ""
    case Plain(text, rest) => (if dropping then "" else text) + Survive(rest, dropping)
    case Ins(body, rest) => Survive(body, dropping) + Survive(rest, dropping && !HasDel(body))
    case Del(body, rest) => Survive(body, true) + Survive(rest, false)
  }

  // ----- the tokens of a tree -----

  function Chs(text: string): (ts: seq<Token>)
    ensures |ts| == |text|
  {
    if text == "" then [] else [Ch(text[0])] + Chs(text[1..])
  }

  lemma {:induction false} ChsConcat(a: string, b: string)
    ensures Chs(a + b) == Chs(a) + Chs(b)
  {
    if a == "" {
      assert a + b == b;
    } else {
      assert (a + b)[1..] == a[1..] + b;
      ChsConcat(a[1..], b);
    }
  }

  lemma {:induction false} ChsRender(text: string)
    ensures Render(Chs(text)) == text && Chars(Chs(text)) == text
  {
    if text != "" {
      ChsRender(text[1..]);
      assert Chs(text)[1..] == Chs(text[1..]);
    }
  }

  lemma {:induction false} ChsAt(text: string, i: nat)
    requires i < |text|
    ensures Chs(text)[i] == Ch(text[i])
  {
    if i > 0 {
      ChsAt(text[1..], i - 1);
    }
  }

  lemma ChsLexed(text: string)
    requires Loose(text)
    ensures Lexed(Chs(text))
  {
    forall i, j | 0 <= i < j < |Chs(text)| && j == i + 1 ensures Beside(Chs(text)[i], Chs(text)[j]) {
      ChsAt(text, i);
      ChsAt(text, j);
    }
  }

  /** The tokens of `r` followed by `k`. */
  function Toks(r: Tree, k: seq<Token>): seq<Token> {
    match r
    case Stop => k
    case Plain(text, rest) => Chs(text) + Toks(rest, k)
    case Ins(body, rest) => [OpenIns] + Toks(body, [CloseIns] + Toks(rest, k))
    case Del(body, rest) => [OpenDel] + Toks(body, [CloseDel] + Toks(rest, k))
  }

  lemma PrintShape(a: string, b: string, c: string, d: string, e: string)
    ensures a + (b + (c + (d + e))) == (a + b + c + d) + e
  {
  }

  lemma {:induction false} PrintIsRender(r: Tree, k: seq<Token>)
    ensures Render(Toks(r, k)) == Print(r) + Render(k)
    decreases r
  {
    match r
    case Stop =>
    case Plain(text, rest) =>
      PrintIsRender(rest, k);
      ChsRender(text);
      RenderConcat(Chs(text), Toks(rest, k));
      ConcatAssoc(text, Print(rest), Render(k));
    case Ins(body, rest) =>
      PrintIsRender(rest, k);
      PrintIsRender(body, [CloseIns] + Toks(rest, k));
      RenderCons(CloseIns, Toks(rest, k));
      RenderCons(OpenIns, Toks(body, [CloseIns] + Toks(rest, k)));
      PrintShape(OPEN_INS, Print(body), CLOSE_INS, Print(rest), Render(k));
    case Del(body, rest) =>
      PrintIsRender(rest, k);
      PrintIsRender(body, [CloseDel] + Toks(rest, k));
      RenderCons(CloseDel, Toks(rest, k));
      RenderCons(OpenDel, Toks(body, [CloseDel] + Toks(rest, k)));
      PrintShape(OPEN_DEL, Print(body), CLOSE_DEL, Print(rest), Render(k));
  }

  /** Text that can follow a marker or an ordinary character. */
  ghost predicate Follows(k: seq<Token>) {
    Lexed(k) && (k != [] ==> k[0] != Ch('}'))
  }

  lemma FollowsMark(m: Token, k: seq<Token>)
    requires Follows(k) && !m.Ch?
    ensures Follows([m] + k)
  {
    LexedJoin([m], k);
  }

  lemma FollowsText(text: string, k: seq<Token>)
    requires Apart(text) && Follows(k)
    ensures Follows(Chs(text) + k)
  {
    if text == "" {
      assert Chs(text) + k == k;
    } else {
      ChsLexed(text);
      ChsAt(text, 0);
      ChsAt(text, |text| - 1);
      LexedJoin(Chs(text), k);
    }
  }

  lemma {:induction false} ToksLexed(r: Tree, k: seq<Token>)
    requires Tame(r) && Follows(k)
    ensures Lexed(Toks(r, k)) && Follows(Toks(r, k))
    decreases r
  {
    match r
    case Stop =>
    case Plain(text, rest) =>
      ToksLexed(rest, k);
      FollowsText(text, Toks(rest, k));
    case Ins(body, rest) =>
      ToksLexed(rest, k);
      FollowsMark(CloseIns, Toks(rest, k));
      ToksLexed(body, [CloseIns] + Toks(rest, k));
      FollowsMark(OpenIns, Toks(body, [CloseIns] + Toks(rest, k)));
    case Del(body, rest) =>
      ToksLexed(rest, k);
      FollowsMark(CloseDel, Toks(rest, k));
      ToksLexed(body, [CloseDel] + Toks(rest, k));
      FollowsMark(OpenDel, Toks(body, [CloseDel] + Toks(rest, k)));
  }

  lemma {:induction false} ContinuationStays(r: Tree, k: seq<Token>, t: Token)
    requires t in k
    ensures t in Toks(r, k)
    decreases r
  {
    match r
    case Stop =>
    case Plain(text, rest) => ContinuationStays(rest, k, t);
    case Ins(body, rest) =>
      ContinuationStays(rest, k, t);
      ContinuationStays(body, [CloseIns] + Toks(rest, k), t);
    case Del(body, rest) =>
      ContinuationStays(rest, k, t);
      ContinuationStays(body, [CloseDel] + Toks(rest, k), t);
  }

  // ----- cleaning the tokens of a tree -----

  /** What is seen of `ts` when a removed stretch is open or not. */
  function See(ts: seq<Token>, dropping: bool): string {
    if dropping then match CutTok(ts, CloseDel) case Some((_, after)) => Visible(after) case None => ""
    else Visible(ts)
  }

  lemma CutCons(t: Token, ts: seq<Token>, m: Token)
    ensures CutTok([t] + ts, m)
         == if t == m then Some(([], ts))
            else match CutTok(ts, m) case Some((a, b)) => Some(([t] + a, b)) case None => None
  {
  }

  lemma VisiblePasses(t: Token, ts: seq<Token>)
    requires t == OpenDel ==> CloseDel !in ts
    ensures Visible([t] + ts) == (if t.Ch? then [t.c] else "") + Visible(ts)
  {
  }

  lemma SeeMark(t: Token, ts: seq<Token>, dropping: bool)
    requires t == OpenIns || t == CloseIns
    ensures See([t] + ts, dropping) == See(ts, dropping)
  {
  }

  lemma SeeOpen(ts: seq<Token>, dropping: bool)
    requires CloseDel in ts
    ensures See([OpenDel] + ts, dropping) == See(ts, true)
  {
    CutCons(OpenDel, ts, CloseDel);
    assert ([OpenDel] + ts)[1..] == ts;
    var kept := PairTok(CutTok(ts, CloseDel).value.1, OpenDel, CloseDel, false);
    assert [] + kept == kept;
  }

  lemma SeeClose(ts: seq<Token>, dropping: bool)
    ensures See([CloseDel] + ts, dropping) == See(ts, false)
  {
  }

  lemma {:induction false} SeeChars(text: string, ts: seq<Token>, dropping: bool)
    ensures See(Chs(text) + ts, dropping) == (if dropping then "" else text) + See(ts, dropping)
  {
    if text == "" {
      assert Chs(text) + ts == ts;
    } else {
      assert Chs(text) + ts == [Ch(text[0])] + (Chs(text[1..]) + ts);
      SeeChars(text[1..], ts, dropping);
      CutCons(Ch(text[0]), Chs(text[1..]) + ts, CloseDel);
      VisiblePasses(Ch(text[0]), Chs(text[1..]) + ts);
    }
  }

  /** Scanning a tree and then `k`. */
  ghost predicate Scans(r: Tree, k: seq<Token>, dropping: bool) {
    See(Toks(r, k), dropping) == Survive(r, dropping) + See(k, dropping && !HasDel(r))
  }

  lemma ScansPlain(text: string, rest: Tree, k: seq<Token>, dropping: bool)
    requires Scans(rest, k, dropping)
    ensures Scans(Plain(text, rest), k, dropping)
  {
    SeeChars(text, Toks(rest, k), dropping);
    ConcatAssoc(if dropping then "" else text, Survive(rest, dropping), See(k, dropping && !HasDel(rest)));
  }

  lemma ScansIns(body: Tree, rest: Tree, k: seq<Token>, dropping: bool)
    requires Scans(body, [CloseIns] + Toks(rest, k), dropping) && Scans(rest, k, dropping && !HasDel(body))
    ensures Scans(Ins(body, rest), k, dropping)
  {
    var after := Toks(rest, k);
    SeeMark(OpenIns, Toks(body, [CloseIns] + after), dropping);
    SeeMark(CloseIns, after, dropping && !HasDel(body));
    ConcatAssoc(Survive(body, dropping), Survive(rest, dropping && !HasDel(body)),
                See(k, dropping && !HasDel(body) && !HasDel(rest)));
  }

  lemma ScansDel(body: Tree, rest: Tree, k: seq<Token>, dropping: bool)
    requires Scans(body, [CloseDel] + Toks(rest, k), true) && Scans(rest, k, false)
    ensures Scans(Del(body, rest), k, dropping)
  {
    var after := Toks(rest, k);
    ContinuationStays(body, [CloseDel] + after, CloseDel);
    SeeOpen(Toks(body, [CloseDel] + after), dropping);
    SeeClose(after, !HasDel(body));
    ConcatAssoc(Survive(body, true), Survive(rest, false), See(k, false));
  }

  lemma {:induction false} SeeTree(r: Tree, k: seq<Token>, dropping: bool)
    ensures Scans(r, k, dropping)
    decreases r
  {
    match r
    case Stop =>
    case Plain(text, rest) =>
      SeeTree(rest, k, dropping);
      ScansPlain(text, rest, k, dropping);
    case Ins(body, rest) =>
      SeeTree(body, [CloseIns] + Toks(rest, k), dropping);
      SeeTree(rest, k, dropping && !HasDel(body));
      ScansIns(body, rest, k, dropping);
    case Del(body, rest) =>
      SeeTree(body, [CloseDel] + Toks(rest, k), true);
      SeeTree(rest, k, false);
      ScansDel(body, rest, k, dropping);
  }

  /** Cleaning the print of any tree, deletions inside deletions included. */
  lemma CleanTree(r: Tree)
    requires Tame(r)
    ensures Clean(Print(r)) == Survive(r, false)
    ensures Unmarked(Clean(Print(r)))
  {
    PrintIsRender(r, []);
    ToksLexed(r, []);
    assert Print(r) + "" == Print(r);
    CleanIsVisible(Toks(r, []));
    CleanLeavesNoMarker(Toks(r, []));
    SeeTree(r, [], false);
  }

  lemma {:induction false} BraceFreeSurvives(r: Tree, dropping: bool)
    requires BraceFree(r)
    ensures Tame(r) && forall c :: c in Survive(r, dropping) ==> !IsBrace(c)
  {
    match r
    case Stop =>
    case Plain(text, rest) =>
      NoBracesApart(text);
      BraceFreeSurvives(rest, dropping);
    case Ins(body, rest) =>
      BraceFreeSurvives(body, dropping);
      BraceFreeSurvives(rest, dropping && !HasDel(body));
    case Del(body, rest) =>
      BraceFreeSurvives(body, true);
      BraceFreeSurvives(rest, false);
  }

  /** Where braces occur only in the markers of the tree, no brace is left. */
  lemma CleanTreeNoBrace(r: Tree)
    requires BraceFree(r)
    ensures Tame(r) && forall c :: c in Clean(Print(r)) ==> !IsBrace(c)
  {
    BraceFreeSurvives(r, false);
    CleanTree(r);
  }

  // ----- when that is accept-all -----

  /** No text survives the scan of this tree. */
  predicate Silent(r: Tree, dropping: bool) {
    match r
    case Stop => true
    case Plain(text, rest) => (dropping || text == "") && Silent(rest, dropping)
    case Ins(body, rest) => Silent(body, dropping) && Silent(rest, dropping && !HasDel(body))
    case Del(body, rest) => Silent(body, true) && Silent(rest, false)
  }

  /** In no outermost deletion does text outside a further inner deletion follow an inner deletion. */
  predicate Tight(r: Tree) {
    match r
    case Stop => true
    case Plain(_, rest) => Tight(rest)
    case Ins(body, rest) => Tight(body) && Tight(rest)
    case Del(body, rest) => Silent(body, true) && Tight(rest)
  }

  lemma {:induction false} SilentIff(r: Tree, dropping: bool)
    ensures Silent(r, dropping) <==> Survive(r, dropping) == ""
  {
    match r
    case Stop =>
    case Plain(text, rest) => SilentIff(rest, dropping);
    case Ins(body, rest) =>
      SilentIff(body, dropping);
      SilentIff(rest, dropping && !HasDel(body));
    case Del(body, rest) =>
      SilentIff(body, true);
      SilentIff(rest, false);
  }

  /** The characters of `a` occur in `b` in the same order. */
  predicate Within(a: string, b: string) {
    if a == "" then true
    else if b == "" then false
    else if a[0] == b[0] then Within(a[1..], b[1..])
    else Within(a, b[1..])
  }

  lemma {:induction false} WithinSkip(a: string, c: char, b: string)
    requires Within(a, b)
    ensures Within(a, [c] + b)
    decreases |b|, 1
  {
    assert ([c] + b)[1..] == b;
    if a != "" && a[0] == c {
      WithinTail(a, b);
    }
  }

  lemma {:induction false} WithinTail(a: string, b: string)
    requires a != "" && Within(a, b)
    ensures Within(a[1..], b)
    decreases |b|, 0
  {
    assert b == [b[0]] + b[1..];
    if a[0] == b[0] {
      WithinSkip(a[1..], b[0], b[1..]);
    } else {
      WithinTail(a, b[1..]);
      WithinSkip(a[1..], b[0], b[1..]);
    }
  }

  lemma {:induction false} WithinConcat(a: string, b: string, c: string, d: string)
    requires Within(a, b) && Within(c, d)
    ensures Within(a + c, b + d)
    decreases |b|
  {
    if b == "" {
      assert a + c == c && b + d == d;
    } else {
      assert (b + d)[1..] == b[1..] + d && b + d == [b[0]] + (b[1..] + d);
      if a == "" {
        WithinConcat(a, b[1..], c, d);
        assert a + c == c;
        WithinSkip(c, b[0], b[1..] + d);
      } else if a[0] == b[0] {
        WithinConcat(a[1..], b[1..], c, d);
        assert (a + c)[1..] == a[1..] + c;
      } else {
        WithinConcat(a, b[1..], c, d);
      }
    }
  }

  lemma {:induction false} WithinSelf(a: string)
    ensures Within(a, a)
  {
    if a != "" {
      WithinSelf(a[1..]);
    }
  }

  lemma {:induction false} AcceptedWithin(r: Tree)
    ensures Within(AcceptAll(r), Survive(r, false))
  {
    match r
    case Stop =>
    case Plain(text, rest) =>
      AcceptedWithin(rest);
      WithinSelf(text);
      WithinConcat(text, text, AcceptAll(rest), Survive(rest, false));
    case Ins(body, rest) =>
      AcceptedWithin(body);
      AcceptedWithin(rest);
      WithinConcat(AcceptAll(body), Survive(body, false), AcceptAll(rest), Survive(rest, false));
    case Del(body, rest) =>
      AcceptedWithin(rest);
      WithinConcat("", Survive(body, true), AcceptAll(rest), Survive(rest, false));
      assert "" + AcceptAll(rest) == AcceptAll(rest);
  }

  lemma {:induction false} AcceptedAtLeast(r: Tree)
    ensures |Survive(r, false)| >= |AcceptAll(r)|
    ensures Tight(r) ==> Survive(r, false) == AcceptAll(r)
    ensures !Tight(r) ==> |Survive(r, false)| > |AcceptAll(r)|
  {
    match r
    case Stop =>
    case Plain(text, rest) => AcceptedAtLeast(rest);
    case Ins(body, rest) =>
      AcceptedAtLeast(body);
      AcceptedAtLeast(rest);
    case Del(body, rest) =>
      SilentIff(body, true);
      AcceptedAtLeast(rest);
  }

  /** Cleaning is accepting all changes if and only if no outermost deletion leaks text that follows an inner
      deletion; it never drops or reorders accepted text. */
  lemma CleanAcceptsIff(r: Tree)
    requires Tame(r)
    ensures Clean(Print(r)) == AcceptAll(r) <==> Tight(r)
    ensures Within(AcceptAll(r), Clean(Print(r)))
  {
    CleanTree(r);
    AcceptedWithin(r);
    AcceptedAtLeast(r);
  }

  predicate NoNestedDel(r: Tree) {
    match r
    case Stop => true
    case Plain(_, rest) => NoNestedDel(rest)
    case Ins(body, rest) => NoNestedDel(body) && NoNestedDel(rest)
    case Del(body, rest) => !HasDel(body) && NoNestedDel(rest)
  }

  lemma {:induction false} NoDelIsSilent(r: Tree)
    requires !HasDel(r)
    ensures Silent(r, true)
  {
    match r
    case Stop =>
    case Plain(_, rest) => NoDelIsSilent(rest);
    case Ins(body, rest) =>
      NoDelIsSilent(body);
      NoDelIsSilent(rest);
  }

  lemma {:induction false} NoNestedDelIsTight(r: Tree)
    requires NoNestedDel(r)
    ensures Tight(r)
  {
    match r
    case Stop =>
    case Plain(_, rest) => NoNestedDelIsTight(rest);
    case Ins(body, rest) =>
      NoNestedDelIsTight(body);
      NoNestedDelIsTight(rest);
    case Del(body, rest) =>
      NoDelIsSilent(body);
      NoNestedDelIsTight(rest);
  }

  /** The promise of the export: with insertions at any depth and no deletion inside a deletion, the download is
      the accepted text and carries no marker. */
  lemma CleanIsAcceptAll(r: Tree)
    requires Tame(r) && NoNestedDel(r)
    ensures CleanRevision(Some(Print(r))) == Clean(Print(r)) == AcceptAll(r)
    ensures Unmarked(Clean(Print(r)))
  {
    CleanTree(r);
    NoNestedDelIsTight(r);
    CleanAcceptsIff(r);
  }

  function Append(a: Tree, b: Tree): Tree {
    match a
    case Stop => b
    case Plain(text, rest) => Plain(text, Append(rest, b))
    case Ins(body, rest) => Ins(body, Append(rest, b))
    case Del(body, rest) => Del(body, Append(rest, b))
  }

  lemma {:induction false} AppendIsConcat(a: Tree, b: Tree)
    ensures Print(Append(a, b)) == Print(a) + Print(b)
    ensures Survive(Append(a, b), false) == Survive(a, false) + Survive(b, false)
    ensures Tame(a) && Tame(b) ==> Tame(Append(a, b))
    decreases a
  {
    match a
    case Stop =>
    case Plain(text, rest) =>
      AppendIsConcat(rest, b);
      ConcatAssoc(text, Print(rest), Print(b));
      ConcatAssoc(text, Survive(rest, false), Survive(b, false));
    case Ins(body, rest) =>
      AppendIsConcat(rest, b);
      ConcatAssoc(OPEN_INS + Print(body) + CLOSE_INS, Print(rest), Print(b));
      ConcatAssoc(Survive(body, false), Survive(rest, false), Survive(b, false));
    case Del(body, rest) =>
      AppendIsConcat(rest, b);
      ConcatAssoc(OPEN_DEL + Print(body) + CLOSE_DEL, Print(rest), Print(b));
      ConcatAssoc(Survive(body, true), Survive(rest, false), Survive(b, false));
  }

  /** Cleaning distributes over putting whole redlines next to each other. */
  lemma CleanDistributes(a: Tree, b: Tree)
    requires Tame(a) && Tame(b)
    ensures Clean(Print(a) + Print(b)) == Clean(Print(a)) + Clean(Print(b))
  {
    AppendIsConcat(a, b);
    CleanTree(a);
    CleanTree(b);
    CleanTree(Append(a, b));
  }

  lemma NoDeletionInSample()
    ensures SubPairs("{{----", OPEN_DEL, CLOSE_DEL, false) == "{{----"
  {
    var s := "{{----";
    assert s[1..] == "{----";
    assert s[1..][3..] == "--";
    assert Cut("--", CLOSE_DEL) == None;
    assert SubPairs("----", OPEN_DEL, CLOSE_DEL, false) == "----";
  }

  lemma NoInsertionInSample()
    ensures SubPairs("{{----", OPEN_INS, CLOSE_INS, true) == "{{----"
  {
  }

  lemma MarkerVanishes()
    ensures Clean("{--") == ""
  {
    var s := "{--";
    assert s[1..] == "--" && s[3..] == "";
    assert SubPairs("--", OPEN_DEL, CLOSE_DEL, false) == "--";
    assert SubPairs("--", OPEN_INS, CLOSE_INS, true) == "--";
    assert Cut("", CLOSE_DEL) == None;
    assert SubPairs(s, OPEN_DEL, CLOSE_DEL, false) == s;
    assert SubPairs(s, OPEN_INS, CLOSE_INS, true) == s;
  }

  /** A single brace and what follows the marker behind it are all that is left of the sample. */
  lemma SampleStripped()
    ensures StripMarkers("{{----") == "{--"
  {
    var s := "{{----";
    var t := s[1..];
    assert s[..3][1] == '{' && !AtMarker(s);
    assert t[..3] == OPEN_DEL && AtMarker(t);
    assert t[3..] == "--" && StripMarkers("--") == "--";
    assert StripMarkers(t) == "--";
  }

  lemma SampleCleaned()
    ensures Clean("{{----") == "{--"
  {
    NoDeletionInSample();
    NoInsertionInSample();
    SampleStripped();
  }

  /** Where a brace stands beside a marker the result can itself be a marker, and cleaning it again gives another
      result. */
  lemma CleanCanLeaveMarker()
    ensures Clean("{{----") == OPEN_DEL && Clean(Clean("{{----")) == ""
  {
    SampleCleaned();
    MarkerVanishes();
  }
}
