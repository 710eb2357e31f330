/** Revising a whole document chunk by chunk, and what the download of the assembled redline says. */
module Revision {
  import opened Options
  import opened Text
  import opened Redline
  import opened RedlineTree
  import opened Splitter

  const BLANK := "\n\n"
  const NOTE := "[Note: the document was " + "very long; this redline " + "covers its first portion.]"

  /** The model's replies: one for each chunk, by position, and one for the list of missing clauses. */
  datatype Replies = Replies(revise: (nat, string) -> string, draft: seq<string> -> string)

  function NonEmpty(parts: seq<string>): seq<string> {
    if parts == [] then [] else (if parts[0] == "" then [] else [parts[0]]) + NonEmpty(parts[1..])
  }

  function Assemble(parts: seq<string>, truncated: bool, additions: string): string {
    Join(BLANK, NonEmpty(parts))
    + (if truncated then BLANK + (OPEN_INS + NOTE + CLOSE_INS) else "")
    + (if additions == "" then "" else BLANK + additions)
  }

  function RevisedParts(chunks: seq<string>, replies: Replies): (parts: seq<string>)
    ensures |parts| == |chunks|
  {
    if chunks == [] then []
    else RevisedParts(chunks[..|chunks| - 1], replies) + [Strip(replies.revise(|chunks| - 1, chunks[|chunks| - 1]))]
  }

  function Additions(missing: seq<string>, replies: Replies): string {
    if missing == [] then "" else Strip(replies.draft(missing))
  }

  function FirstChunks(text: string): seq<string> {
    var chunks := Split(text, CHUNK_CHARS);
    if |chunks| > MAX_CHUNKS then chunks[..MAX_CHUNKS] else chunks
  }

  function Revised(text: string, missing: seq<string>, replies: Replies): string {
    Strip(Assemble(RevisedParts(FirstChunks(text), replies), Truncated(text), Additions(missing, replies)))
  }

  method ReviseContract(text: string, missing: seq<string>, replies: Replies) returns (redline: string)
    ensures redline == Revised(text, missing, replies)
  {
    var chunks := SplitIntoChunks(text, CHUNK_CHARS);
    var truncated := |chunks| > MAX_CHUNKS;
    var first := if |chunks| > MAX_CHUNKS then chunks[..MAX_CHUNKS] else chunks;
    var parts: seq<string> := [];
    for i := 0 to |first|
      invariant parts == RevisedParts(first[..i], replies)
    {
      assert first[..i + 1][..i] == first[..i];
      parts := parts + [Strip(replies.revise(i, first[i]))];
    }
    assert first[..|first|] == first;
    redline := Join(BLANK, NonEmpty(parts));
    if truncated {
      redline := redline + (BLANK + (OPEN_INS + NOTE + CLOSE_INS));
    } else {
      assert redline + "" == redline;
    }
    var additions := if missing == [] then "" else Strip(replies.draft(missing));
    if additions != "" {
      redline := redline + (BLANK + additions);
    } else {
      assert redline + "" == redline;
    }
    redline := Strip(redline);
  }

  // ----- whitespace around a redline -----

  function LTrim(ts: seq<Token>): (r: seq<Token>)
    ensures |r| <= |ts|
  {
    if ts != [] && ts[0].Ch? && IsSpace(ts[0].c) then LTrim(ts[1..]) else ts
  }

  function RTrim(ts: seq<Token>): (r: seq<Token>)
    ensures |r| <= |ts|
  {
    if ts != [] && ts[|ts| - 1].Ch? && IsSpace(ts[|ts| - 1].c) then RTrim(ts[..|ts| - 1]) else ts
  }

  lemma LTrimMore(c: char, gap: string, tail: seq<Token>)
    requires IsSpace(c) && AllSpace(gap)
    ensures AllSpace([c] + gap) && [Ch(c)] + (Chs(gap) + tail) == Chs([c] + gap) + tail
  {
  }

  lemma {:induction false} LTrimIsLStrip(ts: seq<Token>) returns (gap: string)
    ensures LStrip(Render(ts)) == Render(LTrim(ts))
    ensures AllSpace(gap) && ts == Chs(gap) + LTrim(ts)
  {
    gap := "";
    if ts == [] {
    } else if ts[0].Ch? && IsSpace(ts[0].c) {
      RenderHead(ts);
      var rest := LTrimIsLStrip(ts[1..]);
      gap := [ts[0].c] + rest;
      LTrimMore(ts[0].c, rest, LTrim(ts[1..]));
      assert ts == [ts[0]] + ts[1..];
    } else {
      MarkerStartsVisibly(ts);
    }
  }

  lemma MarkerStartsVisibly(ts: seq<Token>)
    requires ts != [] && !(ts[0].Ch? && IsSpace(ts[0].c))
    ensures LStrip(Render(ts)) == Render(ts)
  {
  }

  lemma {:induction false} RTrimIsRStrip(ts: seq<Token>) returns (gap: string)
    ensures RStrip(Render(ts)) == Render(RTrim(ts))
    ensures AllSpace(gap) && ts == RTrim(ts) + Chs(gap)
  {
    gap := "";
    if ts != [] {
      var init, last := ts[..|ts| - 1], ts[|ts| - 1];
      assert ts == init + [last];
      RenderConcat(init, [last]);
      RenderCons(last, []);
      assert [last] + [] == [last];
      if last.Ch? && IsSpace(last.c) {
        assert Render(ts) == Render(init) + [last.c];
        assert (Render(init) + [last.c])[..|Render(init)|] == Render(init);
        var rest := RTrimIsRStrip(init);
        gap := rest + [last.c];
        ChsConcat(rest, [last.c]);
        assert Chs([last.c]) == [last] by { assert [last.c][1..] == ""; }
        assert ts == (RTrim(ts) + Chs(rest)) + [last] == RTrim(ts) + (Chs(rest) + [last]);
      } else {
        assert Render(ts) == Render(init) + TokenText(last);
        LastVisible(Render(init), last);
        assert RTrim(ts) + Chs("") == ts;
      }
    }
  }

  lemma LastVisible(a: string, t: Token)
    requires !(t.Ch? && IsSpace(t.c))
    ensures RStrip(a + TokenText(t)) == a + TokenText(t)
  {
  }

  lemma {:induction false} CutBeforeChars(ts: seq<Token>, text: string, m: Token)
    requires !m.Ch?
    ensures CutTok(ts + Chs(text), m)
         == match CutTok(ts, m) case Some((a, b)) => Some((a, b + Chs(text))) case None => None
  {
    if ts == [] {
      assert ts + Chs(text) == Chs(text);
      NoMarkInChars(text, m);
    } else {
      assert ts == [ts[0]] + ts[1..];
      assert ts + Chs(text) == [ts[0]] + (ts[1..] + Chs(text));
      CutCons(ts[0], ts[1..], m);
      CutCons(ts[0], ts[1..] + Chs(text), m);
      CutBeforeChars(ts[1..], text, m);
    }
  }

  lemma {:induction false} NoMarkInChars(text: string, m: Token)
    requires !m.Ch?
    ensures m !in Chs(text) && CutTok(Chs(text), m) == None
  {
    if text != "" {
      NoMarkInChars(text[1..], m);
      CutCons(Ch(text[0]), Chs(text[1..]), m);
    }
  }

  lemma {:induction false} VisibleBeforeChars(ts: seq<Token>, text: string)
    ensures Visible(ts + Chs(text)) == Visible(ts) + text
    decreases |ts|
  {
    if ts == [] {
      assert ts + Chs(text) == Chs(text) == Chs(text) + [];
      SeeChars(text, [], false);
    } else {
      var t, rest := ts[0], ts[1..];
      assert ts == [t] + rest;
      assert ts + Chs(text) == [t] + (rest + Chs(text));
      CutBeforeChars(rest, text, CloseDel);
      if t == OpenDel && CloseDel in rest {
        var after := CutTok(rest, CloseDel).value.1;
        ContinuationKept(rest, Chs(text), CloseDel);
        SeeOpen(rest, false);
        SeeOpen(rest + Chs(text), false);
        VisibleBeforeChars(after, text);
      } else {
        NoMarkInChars(text, CloseDel);
        VisiblePasses(t, rest);
        VisiblePasses(t, rest + Chs(text));
        VisibleBeforeChars(rest, text);
        ConcatAssoc(if t.Ch? then [t.c] else "", Visible(rest), text);
      }
    }
  }

  lemma ContinuationKept(a: seq<Token>, b: seq<Token>, t: Token)
    requires t in a
    ensures t in a + b
  {
  }

  lemma TrimIsStrip(ts: seq<Token>) returns (a: string, core: seq<Token>, b: string)
    ensures Strip(Render(ts)) == Render(core)
    ensures AllSpace(a) && AllSpace(b) && ts == Chs(a) + (core + Chs(b))
  {
    a := LTrimIsLStrip(ts);
    b := RTrimIsRStrip(LTrim(ts));
    core := RTrim(LTrim(ts));
  }

  /** Stripping a redline before cleaning it changes only outer whitespace. */
  lemma CleanOfStripped(ts: seq<Token>)
    requires Lexed(ts)
    ensures Strip(Clean(Strip(Render(ts)))) == Strip(Clean(Render(ts)))
  {
    var a, core, b := TrimIsStrip(ts);
    LexedPart(Chs(a), core + Chs(b));
    LexedPart(core, Chs(b));
    CleanIsVisible(core);
    CleanIsVisible(ts);
    VisibleBetween(a, core, b);
    StripOuter(a, Visible(core), b);
  }

  lemma VisibleBetween(a: string, core: seq<Token>, b: string)
    ensures Visible(Chs(a) + (core + Chs(b))) == a + Visible(core) + b
  {
    VisibleBeforeChars(core, b);
    SeeChars(a, core + Chs(b), false);
    assert a + (Visible(core) + b) == a + Visible(core) + b;
  }

  // ----- the assembled document -----

  function Prints(trees: seq<Tree>): (r: seq<string>)
    ensures |r| == |trees|
  {
    if trees == [] then [] else [Print(trees[0])] + Prints(trees[1..])
  }

  function CleanAll(parts: seq<string>): seq<string> {
    if parts == [] then [] else [Clean(parts[0])] + CleanAll(parts[1..])
  }

  ghost predicate AllTame(trees: seq<Tree>) {
    forall i :: 0 <= i < |trees| ==> Tame(trees[i])
  }

  function JoinTree(trees: seq<Tree>): Tree {
    if trees == [] then Stop
    else if |trees| == 1 then trees[0]
    else Append(trees[0], Plain(BLANK, JoinTree(trees[1..])))
  }

  lemma BlankTame(r: Tree)
    requires Tame(r)
    ensures Tame(Plain(BLANK, r)) && Print(Plain(BLANK, r)) == BLANK + Print(r)
    ensures Clean(BLANK + Print(r)) == BLANK + Clean(Print(r))
  {
    CleanTree(Plain(BLANK, r));
    CleanTree(r);
  }

  lemma JoinedTwo(first: Tree, tail: Tree)
    requires Tame(first) && Tame(tail)
    ensures Tame(Append(first, Plain(BLANK, tail)))
    ensures Print(Append(first, Plain(BLANK, tail))) == Print(first) + (BLANK + Print(tail))
    ensures Clean(Print(first) + (BLANK + Print(tail))) == Clean(Print(first)) + (BLANK + Clean(Print(tail)))
  {
    BlankTame(tail);
    AppendIsConcat(first, Plain(BLANK, tail));
    CleanDistributes(first, Plain(BLANK, tail));
  }

  /** Cleaning a joined list of redlines joins the cleaned ones. */
  lemma {:induction false} CleanOfJoin(trees: seq<Tree>)
    requires AllTame(trees)
    ensures Tame(JoinTree(trees)) && Print(JoinTree(trees)) == Join(BLANK, Prints(trees))
    ensures Clean(Join(BLANK, Prints(trees))) == Join(BLANK, CleanAll(Prints(trees)))
  {
    if trees == [] {
      CleanTree(Stop);
    } else if |trees| == 1 {
      assert CleanAll(Prints(trees)) == [Clean(Print(trees[0]))];
    } else {
      var first, rest := trees[0], trees[1..];
      CleanOfJoin(rest);
      JoinedTwo(first, JoinTree(rest));
      assert Prints(trees) == [Print(first)] + Prints(rest);
      assert CleanAll(Prints(trees)) == [Clean(Print(first))] + CleanAll(Prints(rest));
      CleanAllLength(Prints(rest));
      JoinCons(BLANK, Print(first), Prints(rest));
      JoinCons(BLANK, Clean(Print(first)), CleanAll(Prints(rest)));
      ConcatAssoc(Print(first), BLANK, Join(BLANK, Prints(rest)));
      ConcatAssoc(Clean(Print(first)), BLANK, Join(BLANK, CleanAll(Prints(rest))));
    }
  }

  lemma {:induction false} CleanAllLength(parts: seq<string>)
    ensures |CleanAll(parts)| == |parts|
  {
    if parts != [] {
      CleanAllLength(parts[1..]);
    }
  }

  function NonEmptyTrees(trees: seq<Tree>): seq<Tree> {
    if trees == [] then [] else (if Print(trees[0]) == "" then [] else [trees[0]]) + NonEmptyTrees(trees[1..])
  }

  lemma {:induction false} NonEmptyPrints(trees: seq<Tree>)
    requires AllTame(trees)
    ensures Prints(NonEmptyTrees(trees)) == NonEmpty(Prints(trees))
    ensures AllTame(NonEmptyTrees(trees))
  {
    if trees != [] {
      NonEmptyPrints(trees[1..]);
      assert Prints(trees)[1..] == Prints(trees[1..]);
      var rest := NonEmptyTrees(trees[1..]);
      assert ([trees[0]] + rest)[1..] == rest && [] + rest == rest;
    }
  }

  lemma LacksBraces(s: string)
    requires forall i :: 0 <= i < |s| ==> !IsBrace(s[i])
    ensures forall c :: c in s ==> !IsBrace(c)
  {
  }

  lemma NoteTame()
    ensures Tame(Plain(NOTE, Stop))
  {
    LacksBraces("[Note: the document was ");
    LacksBraces("very long; this redline ");
    LacksBraces("covers its first portion.]");
    NoBracesApart(NOTE);
  }

  /** The truncation note as it stands in the redline. */
  lemma NoteTree(note: string) returns (r: Tree)
    requires Tame(Plain(note, Stop))
    ensures Tame(r) && Print(r) == BLANK + (OPEN_INS + note + CLOSE_INS)
    ensures Clean(Print(r)) == BLANK + note
  {
    var ins := Ins(Plain(note, Stop), Stop);
    r := Plain(BLANK, ins);
    assert Print(Plain(note, Stop)) == note;
    assert OPEN_INS + note + CLOSE_INS + "" == OPEN_INS + note + CLOSE_INS;
    BlankTame(ins);
    CleanTree(ins);
    assert Survive(ins, false) == note + "";
  }

  /** The document a reader downloads, written out part by part. */
  function CleanedDocument(parts: seq<string>, truncated: bool, additions: string): string {
    Join(BLANK, CleanAll(NonEmpty(parts)))
    + (if truncated then BLANK + NOTE else "")
    + (if additions == "" then "" else BLANK + Clean(additions))
  }

  lemma AssembledTree(trees: seq<Tree>, truncated: bool, extra: Tree) returns (whole: Tree)
    requires AllTame(trees) && Tame(extra)
    ensures Tame(whole) && Print(whole) == Assemble(Prints(trees), truncated, Print(extra))
    ensures Clean(Print(whole)) == CleanedDocument(Prints(trees), truncated, Print(extra))
  {
    NonEmptyPrints(trees);
    CleanOfJoin(NonEmptyTrees(trees));
    NoteTame();
    var body := JoinTree(NonEmptyTrees(trees));
    var noteTree := NoteTree(NOTE);
    var note := if truncated then noteTree else Stop;
    var tail := if Print(extra) == "" then Stop else Plain(BLANK, extra);
    BlankTame(extra);
    CleanTree(Stop);
    AppendIsConcat(body, note);
    CleanDistributes(body, note);
    whole := Append(Append(body, note), tail);
    AppendIsConcat(Append(body, note), tail);
    CleanDistributes(Append(body, note), tail);
  }

  // ----- end to end -----

  /** The replies about the first twelve chunks of 8,000 characters are, stripped, the prints of `trees`, and the one
      about the missing clauses, if there are any, is the print of `extra`. */
  ghost predicate Replied(text: string, missing: seq<string>, replies: Replies, trees: seq<Tree>, extra: Tree) {
    var chunks := Split(text, 8000);
    && |trees| == (if |chunks| > 12 then 12 else |chunks|)
    && (forall i :: 0 <= i < |trees| ==> Strip(replies.revise(i, chunks[i])) == Print(trees[i]))
    && Print(extra) == (if missing == [] then "" else Strip(replies.draft(missing)))
  }

  /** What is left of each redline that is not empty. */
  function Texts(trees: seq<Tree>): seq<string> {
    if trees == [] then []
    else (if Print(trees[0]) == "" then [] else [Survive(trees[0], false)]) + Texts(trees[1..])
  }

  /** The document a reader downloads: what is left of the redlines, the note if it was cut short, and what is left of
      the additions, with blank lines between them. */
  function Download(trees: seq<Tree>, truncated: bool, extra: Tree): string {
    Join(BLANK, Texts(trees))
    + (if truncated then BLANK + NOTE else "")
    + (if Print(extra) == "" then "" else BLANK + Survive(extra, false))
  }

  lemma {:induction false} TextsAreCleaned(trees: seq<Tree>)
    requires AllTame(trees)
    ensures CleanAll(NonEmpty(Prints(trees))) == Texts(trees)
  {
    if trees != [] {
      TextsAreCleaned(trees[1..]);
      CleanTree(trees[0]);
      var rest := NonEmpty(Prints(trees[1..]));
      assert Prints(trees)[1..] == Prints(trees[1..]);
      if Print(trees[0]) == "" {
        assert [] + rest == rest;
      } else {
        assert ([Print(trees[0])] + rest)[1..] == rest;
      }
    }
  }

  lemma {:induction false} PartsAre(chunks: seq<string>, replies: Replies, trees: seq<Tree>)
    requires |trees| == |chunks|
    requires forall i :: 0 <= i < |trees| ==> Strip(replies.revise(i, chunks[i])) == Print(trees[i])
    ensures RevisedParts(chunks, replies) == Prints(trees)
  {
    if chunks != [] {
      var n := |chunks| - 1;
      PartsAre(chunks[..n], replies, trees[..n]);
      PrintsSnoc(trees[..n], trees[n]);
      assert trees == trees[..n] + [trees[n]];
    }
  }

  lemma {:induction false} PrintsSnoc(trees: seq<Tree>, r: Tree)
    ensures Prints(trees + [r]) == Prints(trees) + [Print(r)]
  {
    if trees == [] {
      assert trees + [r] == [r] && [r][1..] == [];
    } else {
      assert (trees + [r])[1..] == trees[1..] + [r];
      PrintsSnoc(trees[1..], r);
    }
  }

  /** End to end: when every reply is a redline, cleaning the revision gives, up to outer whitespace, exactly what is
      left of the replies, with the note if the document has more than twelve chunks. */
  lemma DownloadIsCleanedParts(text: string, missing: seq<string>, replies: Replies, trees: seq<Tree>, extra: Tree)
    requires Replied(text, missing, replies, trees, extra) && AllTame(trees) && Tame(extra)
    ensures Strip(Clean(Revised(text, missing, replies)))
         == Strip(Download(trees, |Split(text, 8000)| > 12, extra))
  {
    PartsAre(FirstChunks(text), replies, trees);
    TextsAreCleaned(trees);
    CleanTree(extra);
    var whole := AssembledTree(trees, Truncated(text), extra);
    PrintIsRender(whole, []);
    ToksLexed(whole, []);
    assert Print(whole) + "" == Print(whole);
    CleanOfStripped(Toks(whole, []));
  }

  /** The accepted texts of the redlines that are not empty. */
  function AcceptedTexts(trees: seq<Tree>): seq<string> {
    if trees == [] then []
    else (if Print(trees[0]) == "" then [] else [AcceptAll(trees[0])]) + AcceptedTexts(trees[1..])
  }

  lemma {:induction false} TextsAreAccepted(trees: seq<Tree>)
    requires forall i :: 0 <= i < |trees| ==> NoNestedDel(trees[i])
    ensures Texts(trees) == AcceptedTexts(trees)
  {
    if trees != [] {
      NoNestedDelIsTight(trees[0]);
      AcceptedAtLeast(trees[0]);
      TextsAreAccepted(trees[1..]);
    }
  }

  /** If moreover no deletion is inside another, the download is the accepted text of every reply. */
  lemma DownloadIsAccepted(text: string, missing: seq<string>, replies: Replies, trees: seq<Tree>, extra: Tree)
    requires Replied(text, missing, replies, trees, extra) && AllTame(trees) && Tame(extra)
    requires (forall i :: 0 <= i < |trees| ==> NoNestedDel(trees[i])) && NoNestedDel(extra)
    ensures Strip(Clean(Revised(text, missing, replies)))
         == Strip(Join(BLANK, AcceptedTexts(trees))
                  + (if |Split(text, 8000)| > 12 then BLANK + NOTE else "")
                  + (if Print(extra) == "" then "" else BLANK + AcceptAll(extra)))
  {
    DownloadIsCleanedParts(text, missing, replies, trees, extra);
    TextsAreAccepted(trees);
    NoNestedDelIsTight(extra);
    AcceptedAtLeast(extra);
  }

  // ----- a reviser that changes nothing -----

  lemma StripUnmarked(s: string)
    requires Unmarked(s)
    ensures Unmarked(Strip(s)) && Unmarked(LStrip(s))
  {
    LStripUnmarked(s);
    RStripUnmarked(LStrip(s));
  }

  lemma {:induction false} LStripUnmarked(s: string)
    requires Unmarked(s)
    ensures Unmarked(LStrip(s))
  {
    if s != "" && IsSpace(s[0]) {
      SliceUnmarked(s, 1, |s|);
      assert s[1..|s|] == s[1..];
      LStripUnmarked(s[1..]);
    }
  }

  lemma {:induction false} RStripUnmarked(s: string)
    requires Unmarked(s)
    ensures Unmarked(RStrip(s))
  {
    if s != "" && IsSpace(s[|s| - 1]) {
      SliceUnmarked(s, 0, |s| - 1);
      assert s[0..|s| - 1] == s[..|s| - 1];
      RStripUnmarked(s[..|s| - 1]);
    }
  }

  lemma {:induction false} ChunksUnmarked(remaining: string, maxChars: nat)
    requires maxChars >= 1 && Unmarked(remaining)
    ensures forall chunk :: chunk in Chunks(remaining, maxChars) ==> Unmarked(chunk)
    decreases |remaining|
  {
    if |remaining| > maxChars {
      var brk, after := ChunksStep(remaining, maxChars);
      SliceUnmarked(remaining, 0, brk);
      SliceUnmarked(remaining, brk, |remaining|);
      assert remaining[0..brk] == remaining[..brk] && remaining[brk..|remaining|] == remaining[brk..];
      StripUnmarked(remaining[brk..]);
      ChunksUnmarked(after, maxChars);
    }
  }

  function StripEach(parts: seq<string>): seq<string> {
    if parts == [] then [] else [Strip(parts[0])] + StripEach(parts[1..])
  }

  lemma {:induction false} UnchangedParts(chunks: seq<string>, replies: Replies)
    requires forall i: nat, chunk :: replies.revise(i, chunk) == chunk
    ensures RevisedParts(chunks, replies) == StripEach(chunks)
  {
    if chunks != [] {
      var init := chunks[..|chunks| - 1];
      UnchangedParts(init, replies);
      StripEachSnoc(init, chunks[|chunks| - 1]);
      assert chunks == init + [chunks[|chunks| - 1]];
    }
  }

  lemma {:induction false} StripEachSnoc(parts: seq<string>, p: string)
    ensures StripEach(parts + [p]) == StripEach(parts) + [Strip(p)]
  {
    if parts == [] {
      assert parts + [p] == [p];
      assert [p][1..] == [];
    } else {
      assert (parts + [p])[1..] == parts[1..] + [p];
      StripEachSnoc(parts[1..], p);
    }
  }

  /** Joining the stripped, non-empty chunks keeps their non-whitespace characters and adds no marker. */
  lemma {:induction false} JoinedKeeps(chunks: seq<string>)
    requires forall chunk :: chunk in chunks ==> Unmarked(chunk)
    ensures NonSpace(Join(BLANK, NonEmpty(StripEach(chunks)))) == NonSpace(Join("", chunks))
    ensures Unmarked(Join(BLANK, NonEmpty(StripEach(chunks))))
  {
    if chunks != [] {
      var first, rest := chunks[0], chunks[1..];
      assert chunks == [first] + rest;
      JoinedKeeps(rest);
      StripUnmarked(first);
      NonSpaceStrip(first);
      JoinEmptyCons(first, rest);
      NonSpaceConcat(first, Join("", rest));
      assert StripEach(chunks)[1..] == StripEach(rest);
      var tail := NonEmpty(StripEach(rest));
      if Strip(first) != "" {
        JoinedCons(Strip(first), tail);
      } else {
        assert NonEmpty(StripEach(chunks)) == [] + tail == tail;
        assert NonSpace(first) == "";
      }
    }
  }

  lemma BlankLacks(a: string, b: string, m: Token)
    requires !m.Ch? && !Contains(a, TokenText(m)) && !Contains(b, TokenText(m))
    ensures !Contains(a + BLANK + b, TokenText(m))
  {
    var rest := "" + ['\n'] + b;
    assert a + BLANK + b == a + ['\n'] + rest;
    assert !Contains("", TokenText(m));
    if Contains(rest, TokenText(m)) {
      ContainsAcross("", '\n', b, TokenText(m));
    }
    if Contains(a + ['\n'] + rest, TokenText(m)) {
      ContainsAcross(a, '\n', rest, TokenText(m));
    }
  }

  lemma BlankUnmarked(a: string, b: string)
    requires Unmarked(a) && Unmarked(b)
    ensures Unmarked(a + BLANK + b)
  {
    BlankLacks(a, b, OpenDel);
    BlankLacks(a, b, CloseDel);
    BlankLacks(a, b, OpenIns);
    BlankLacks(a, b, CloseIns);
  }

  lemma JoinedCons(x: string, tail: seq<string>)
    requires Unmarked(x) && Unmarked(Join(BLANK, tail))
    ensures Unmarked(Join(BLANK, [x] + tail))
    ensures NonSpace(Join(BLANK, [x] + tail)) == NonSpace(x) + NonSpace(Join(BLANK, tail))
  {
    assert ([x] + tail)[1..] == tail;
    if tail != [] {
      BlankUnmarked(x, Join(BLANK, tail));
      NonSpaceConcat(x + BLANK, Join(BLANK, tail));
      NonSpaceConcat(x, BLANK);
      NonSpaceOfSpace(BLANK);
    }
  }

  /** If the reviser changes nothing and nothing is missing, a document that holds no marker and has at most
      twelve chunks comes back with exactly its non-whitespace characters. */
  lemma UnchangedComesBack(text: string, replies: Replies)
    requires forall i: nat, chunk :: replies.revise(i, chunk) == chunk
    requires Unmarked(text) && !Truncated(text)
    ensures NonSpace(Clean(Revised(text, [], replies))) == NonSpace(text)
  {
    var chunks := Split(text, CHUNK_CHARS);
    UnchangedParts(chunks, replies);
    StripUnmarked(text);
    ChunksUnmarked(Strip(text), CHUNK_CHARS);
    ChunksKeepNonSpace(Strip(text), CHUNK_CHARS);
    NonSpaceStrip(text);
    assert Chunks(Strip(text), CHUNK_CHARS) == [] ==> NonSpace(Join("", [text])) == NonSpace(text);
    JoinedKeeps(chunks);
    var joined := Join(BLANK, NonEmpty(StripEach(chunks)));
    assert Assemble(RevisedParts(chunks, replies), false, "") == joined + "" + "" == joined;
    StripUnmarked(joined);
    CleanFixesIff(Strip(joined));
    NonSpaceStrip(joined);
  }
}
