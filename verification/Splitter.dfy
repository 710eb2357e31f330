/** Cutting a long document into chunks for revision. */
module Splitter {
  import opened Options
  import opened Text

  const CHUNK_CHARS := 8000
  const MAX_CHUNKS := 12

  /** Where the window is cut: at its last paragraph, line or word boundary, in this order of preference, as
      long as that lies in its second half, and otherwise at its end. */
  function BreakAt(window: string): (brk: nat)
    ensures brk <= |window| <= 2 * brk
  {
    var paragraph, line, word := RFind(window, "\n\n"), RFind(window, "\n"), RFind(window, " ");
    if 2 * paragraph >= |window| then paragraph
    else if 2 * line >= |window| then line
    else if 2 * word >= |window| then word
    else |window|
  }

  function Chunks(remaining: string, maxChars: nat): seq<string>
    requires maxChars >= 1
    decreases |remaining|
  {
    if |remaining| > maxChars then
      var brk := BreakAt(remaining[..maxChars]);
      [remaining[..brk]] + Chunks(LStrip(remaining[brk..]), maxChars)
    else if remaining != "" then [remaining]
    else []
  }

  function Split(text: string, maxChars: nat): seq<string>
    requires maxChars >= 1
  {
    var chunks := Chunks(Strip(text), maxChars);
    if chunks == [] then [text] else chunks
  }

  /** The splitter's loop; it ends for every positive `maxChars`. */
  method SplitIntoChunks(text: string, maxChars: nat) returns (chunks: seq<string>)
    requires maxChars >= 1
    ensures chunks == Split(text, maxChars)
  {
    chunks := [];
    var remaining := Strip(text);
    while |remaining| > maxChars
      invariant chunks + Chunks(remaining, maxChars) == Chunks(Strip(text), maxChars)
      decreases |remaining|
    {
      ghost var step, after := ChunksStep(remaining, maxChars);
      assert chunks + ([remaining[..step]] + Chunks(after, maxChars))
             == chunks + [remaining[..step]] + Chunks(after, maxChars);
      var window := remaining[..maxChars];
      var brk := RFind(window, "\n\n");
      if 2 * brk < maxChars {
        brk := RFind(window, "\n");
      }
      if 2 * brk < maxChars {
        brk := RFind(window, " ");
      }
      if 2 * brk < maxChars {
        brk := maxChars;
      }
      assert brk == step;
      chunks := chunks + [remaining[..brk]];
      remaining := LStrip(remaining[brk..]);
    }
    if remaining != "" {
      chunks := chunks + [remaining];
    }
    if chunks == [] {
      chunks := [text];
    }
  }

  /** One step: a chunk and the text still to be cut. */
  lemma ChunksStep(remaining: string, maxChars: nat) returns (brk: nat, after: string)
    requires 1 <= maxChars < |remaining|
    ensures 1 <= brk <= maxChars <= 2 * brk && brk == BreakAt(remaining[..maxChars])
    ensures after == LStrip(remaining[brk..]) && |after| + brk <= |remaining|
    ensures Chunks(remaining, maxChars) == [remaining[..brk]] + Chunks(after, maxChars)
  {
    brk := BreakAt(remaining[..maxChars]);
    after := LStrip(remaining[brk..]);
  }

  /** With `maxChars` zero the loop body would leave `remaining` as it is, so a positive `maxChars` is exactly
      what progress needs. */
  lemma ProgressIff(remaining: string, maxChars: nat)
    requires |remaining| > maxChars && !IsSpace(remaining[0])
    ensures |LStrip(remaining[BreakAt(remaining[..maxChars])..])| < |remaining| <==> maxChars >= 1
  {
  }

  // ----- where the cuts fall -----

  /** A cut beside a non-whitespace character happens only in a window whose second half has no space and no
      line feed. */
  lemma CutInsideWord(remaining: string, maxChars: nat, j: nat)
    requires 1 <= maxChars < |remaining|
    requires !IsSpace(remaining[BreakAt(remaining[..maxChars])])
    requires j < maxChars && 2 * j >= maxChars
    ensures BreakAt(remaining[..maxChars]) == maxChars
    ensures remaining[j] != ' ' && remaining[j] != '\n'
  {
    var window := remaining[..maxChars];
    var brk := BreakAt(window);
    if brk < maxChars {
      BreakIsSpace(window);
    }
    RFindIsLast(window, " ", |window|);
    RFindIsLast(window, "\n", |window|);
    assert StartsWith(window[j..], " ") <==> remaining[j] == ' ';
    assert StartsWith(window[j..], "\n") <==> remaining[j] == '\n';
  }

  lemma BreakIsSpace(window: string)
    requires BreakAt(window) < |window|
    ensures IsSpace(window[BreakAt(window)])
  {
    var brk := BreakAt(window);
    RFindIsLast(window, "\n\n", |window|);
    RFindIsLast(window, "\n", |window|);
    RFindIsLast(window, " ", |window|);
    assert window[brk] == window[brk..][0];
    if StartsWith(window[brk..], "\n\n") {
      assert window[brk..][..2][0] == '\n';
    } else if StartsWith(window[brk..], "\n") {
      assert window[brk..][..1][0] == '\n';
    } else {
      assert window[brk..][..1][0] == ' ';
    }
  }

  /** A paragraph boundary in the second half is preferred to any later line or word boundary, and a line
      boundary to any later word boundary. */
  lemma BreakPrefers(window: string, j: nat)
    requires j < |window| && 2 * j >= |window|
    ensures StartsWith(window[j..], "\n\n") ==> BreakAt(window) >= j && StartsWith(window[BreakAt(window)..], "\n\n")
    ensures StartsWith(window[j..], "\n") && BreakAt(window) < |window| ==> StartsWith(window[BreakAt(window)..], "\n")
  {
    var brk := BreakAt(window);
    RFindIsLast(window, "\n\n", |window|);
    RFindIsLast(window, "\n", |window|);
    if StartsWith(window[brk..], "\n\n") {
      assert window[brk..][..1] == window[brk..][..2][..1];
    }
  }

  /** `p` starts at `k`, in the second half of the window. */
  predicate Boundary(window: string, p: string, k: nat) {
    k <= |window| <= 2 * k && StartsWith(window[k..], p)
  }

  ghost predicate LastBoundary(window: string, p: string, k: nat) {
    Boundary(window, p, k) && forall j :: k < j <= |window| ==> !Boundary(window, p, j)
  }

  lemma FoundIsLast(window: string, p: string)
    ensures var r := RFind(window, p);
            if 2 * r >= |window| && r >= 0 then LastBoundary(window, p, r)
            else forall j :: 0 <= j <= |window| ==> !Boundary(window, p, j)
  {
    RFindIsLast(window, p, |window|);
  }

  /** The cut is the last paragraph boundary of the window's second half; if it has none the last line boundary, and
      then the last word boundary; and the window's end only if it has none of them. */
  lemma BreakIsLast(window: string)
    requires window != ""
    ensures var k := BreakAt(window);
            if exists j :: Boundary(window, "\n\n", j) then LastBoundary(window, "\n\n", k)
            else if exists j :: Boundary(window, "\n", j) then LastBoundary(window, "\n", k)
            else if exists j :: Boundary(window, " ", j) then LastBoundary(window, " ", k)
            else k == |window|
  {
    FoundIsLast(window, "\n\n");
    FoundIsLast(window, "\n");
    FoundIsLast(window, " ");
  }

  predicate Suffix(s: string, rest: string) {
    |rest| <= |s| && s[|s| - |rest|..] == rest
  }

  lemma SuffixOfSuffix(a: string, b: string, c: string)
    requires Suffix(a, b) && Suffix(b, c)
    ensures Suffix(a, c)
  {
    assert a[|a| - |b|..][|b| - |c|..] == a[|a| - |c|..];
  }

  lemma RestIsSuffix(s: string, k: nat)
    requires k <= |s|
    ensures Suffix(s, LStrip(s[k..]))
  {
    LStripDropsSpace(s[k..]);
    assert Suffix(s, s[k..]);
    SuffixOfSuffix(s, s[k..], LStrip(s[k..]));
  }

  lemma LaterChunk(first: string, rest: seq<string>, i: nat)
    requires 1 <= i <= |rest|
    ensures ([first] + rest)[i] == rest[i - 1]
  {
  }

  /** Every chunk but the last is what the next window of the remaining text is cut to. */
  lemma {:induction false} ChunkEndsAtBreak(remaining: string, maxChars: nat, i: nat) returns (rest: string)
    requires maxChars >= 1 && i + 1 < |Chunks(remaining, maxChars)|
    ensures Suffix(remaining, rest) && |rest| > maxChars
    ensures Chunks(remaining, maxChars)[i] == rest[..BreakAt(rest[..maxChars])]
    decreases |remaining|
  {
    var brk, after := ChunksStep(remaining, maxChars);
    if i == 0 {
      rest := remaining;
    } else {
      rest := ChunkEndsAtBreak(after, maxChars, i - 1);
      LaterChunk(remaining[..brk], Chunks(after, maxChars), i);
      RestIsSuffix(remaining, brk);
      SuffixOfSuffix(remaining, after, rest);
    }
  }

  // ----- what the chunks hold -----

  ghost predicate AllGaps(gaps: seq<string>) {
    forall i :: 0 <= i < |gaps| ==> AllSpace(gaps[i])
  }

  /** The chunks in order with a gap after each but the last. */
  function Weave(chunks: seq<string>, gaps: seq<string>): string
    requires |chunks| == |gaps| + 1
  {
    if gaps == [] then chunks[0] else chunks[0] + gaps[0] + Weave(chunks[1..], gaps[1..])
  }

  /** Text without outer whitespace. */
  predicate Stripped(s: string) {
    s != "" && !IsSpace(s[0]) && !IsSpace(s[|s| - 1])
  }

  lemma {:induction false} LStripKeepsLast(s: string)
    requires s != "" && !IsSpace(s[|s| - 1])
    ensures var r := LStrip(s); r != "" && r[|r| - 1] == s[|s| - 1]
  {
    if IsSpace(s[0]) {
      LStripKeepsLast(s[1..]);
    }
  }

  /** What follows a cut in stripped text is stripped and not empty. */
  lemma RestStripped(remaining: string, brk: nat)
    requires 1 <= brk < |remaining| && Stripped(remaining)
    ensures var after := LStrip(remaining[brk..]);
            Stripped(after) && |after| <= |remaining| - brk
            && AllSpace(remaining[brk..|remaining| - |after|])
            && remaining == remaining[..brk] + remaining[brk..|remaining| - |after|] + after
  {
    var tail := remaining[brk..];
    LStripDropsSpace(tail);
    LStripKeepsLast(tail);
    var k := |tail| - |LStrip(tail)|;
    TakeOfDrop(remaining, brk, k);
    Regroup(remaining[..brk], tail[..k], LStrip(tail));
  }

  lemma Regroup(a: string, b: string, c: string)
    ensures a + (b + c) == a + b + c
  {
  }

  lemma StrippedStays(remaining: string, brk: nat)
    requires 1 <= brk < |remaining| && Stripped(remaining)
    ensures Stripped(LStrip(remaining[brk..]))
  {
    RestStripped(remaining, brk);
  }

  /** Every chunk is between half of and all of `maxChars` long, but for the last, which may be shorter, and
      starts with a non-whitespace character. */
  ghost predicate WellSized(chunks: seq<string>, maxChars: nat) {
    forall i :: 0 <= i < |chunks| ==>
      && 1 <= |chunks[i]| <= maxChars
      && !IsSpace(chunks[i][0])
      && (i < |chunks| - 1 ==> 2 * |chunks[i]| >= maxChars)
  }

  /** One cut in front of chunks that conserve what follows it. */
  lemma CutConserves(chunk: string, gap: string, after: string, chunks: seq<string>, gaps: seq<string>, maxChars: nat)
    requires |chunks| == |gaps| + 1 && AllGaps(gaps) && Weave(chunks, gaps) == after && WellSized(chunks, maxChars)
    requires AllSpace(gap) && 1 <= |chunk| <= maxChars <= 2 * |chunk| && !IsSpace(chunk[0])
    ensures AllGaps([gap] + gaps) && Weave([chunk] + chunks, [gap] + gaps) == chunk + gap + after
    ensures WellSized([chunk] + chunks, maxChars)
  {
  }

  lemma {:induction false} ChunksConserve(remaining: string, maxChars: nat) returns (gaps: seq<string>)
    requires maxChars >= 1 && Stripped(remaining)
    ensures |Chunks(remaining, maxChars)| == |gaps| + 1
    ensures AllGaps(gaps) && Weave(Chunks(remaining, maxChars), gaps) == remaining
    ensures WellSized(Chunks(remaining, maxChars), maxChars)
    decreases |remaining|
  {
    if |remaining| > maxChars {
      var brk, after := ChunksStep(remaining, maxChars);
      RestStripped(remaining, brk);
      var rest := ChunksConserve(after, maxChars);
      var gap := remaining[brk..|remaining| - |after|];
      gaps := [gap] + rest;
      CutConserves(remaining[..brk], gap, after, Chunks(after, maxChars), rest, maxChars);
    } else {
      gaps := [];
    }
  }

  /** The splitter loses nothing but whitespace at the cuts: the stripped text is the chunks in order with
      whitespace between them.  Text that is all whitespace, and only that, comes back as it is. */
  lemma SplitConserves(text: string, maxChars: nat) returns (gaps: seq<string>)
    requires maxChars >= 1
    ensures if AllSpace(text) then Split(text, maxChars) == [text]
            else |Split(text, maxChars)| == |gaps| + 1 && AllGaps(gaps)
                 && Weave(Split(text, maxChars), gaps) == Strip(text) && WellSized(Split(text, maxChars), maxChars)
  {
    gaps := [];
    StripEnds(text);
    if AllSpace(text) {
      StripAfter("", text);
      assert "" + text == text;
      assert Strip(text) == Strip("") == "";
    } else {
      if Strip(text) == "" {
        StripNotEmpty(text);
      }
      gaps := ChunksConserve(Strip(text), maxChars);
    }
  }

  lemma StripNotEmpty(text: string)
    requires Strip(text) == ""
    ensures AllSpace(text)
  {
    LStripDropsSpace(text);
    var l := LStrip(text);
    RStripDropsSpace(l);
    assert l[0..] == l;
    assert l == "" ;
    assert text[..|text|] == text;
  }

  /** The characters that are not whitespace survive the cutting, in order. */
  lemma {:induction false} ChunksKeepNonSpace(remaining: string, maxChars: nat)
    requires maxChars >= 1
    ensures NonSpace(Join("", Chunks(remaining, maxChars))) == NonSpace(remaining)
    decreases |remaining|
  {
    if |remaining| > maxChars {
      var brk, after := ChunksStep(remaining, maxChars);
      ChunksKeepNonSpace(after, maxChars);
      NonSpaceCut(remaining, brk);
      var tail := Chunks(after, maxChars);
      JoinEmptyCons(remaining[..brk], tail);
      NonSpaceConcat(remaining[..brk], Join("", tail));
    }
  }

  lemma NonSpaceCut(s: string, k: nat)
    requires k <= |s|
    ensures NonSpace(s) == NonSpace(s[..k]) + NonSpace(LStrip(s[k..]))
    ensures |NonSpace(s[..k])| <= k
  {
    NonSpaceStrip(s[k..]);
    NonSpaceConcat(s[..k], s[k..]);
    assert s == s[..k] + s[k..];
    NonSpaceLength(s[..k]);
  }

  lemma JoinEmptyCons(x: string, rest: seq<string>)
    ensures Join("", [x] + rest) == x + Join("", rest)
  {
  }

  // ----- how many chunks -----

  /** The length of `n` windows. */
  function Windows(n: nat, maxChars: nat): nat {
    if n == 0 then 0 else Windows(n - 1, maxChars) + maxChars
  }

  lemma {:induction false} WindowsIsProduct(n: nat, maxChars: nat)
    ensures Windows(n, maxChars) == n * maxChars
  {
    if n > 0 {
      WindowsIsProduct(n - 1, maxChars);
      assert (n - 1) * maxChars + maxChars == n * maxChars;
    }
  }

  /** `n` chunks need `n - 1` half windows of text and more. */
  lemma {:induction false} ManyChunksNeedText(remaining: string, maxChars: nat, n: nat)
    requires maxChars >= 1 && Stripped(remaining) && n + 1 == |Chunks(remaining, maxChars)|
    ensures 2 * |remaining| > Windows(n, maxChars)
    decreases |remaining|
  {
    if |remaining| > maxChars {
      var brk, after := ChunksStep(remaining, maxChars);
      StrippedStays(remaining, brk);
      ManyChunksNeedText(after, maxChars, n - 1);
    }
  }

  /** `n` chunks hold no more than `n` windows of text that is not whitespace. */
  lemma {:induction false} FewChunksHoldLittle(remaining: string, maxChars: nat, n: nat)
    requires maxChars >= 1 && n == |Chunks(remaining, maxChars)|
    ensures |NonSpace(remaining)| <= Windows(n, maxChars)
    decreases |remaining|
  {
    NonSpaceLength(remaining);
    if |remaining| > maxChars {
      var brk, after := ChunksStep(remaining, maxChars);
      FewChunksHoldLittle(after, maxChars, n - 1);
      NonSpaceCut(remaining, brk);
    }
  }

  predicate Truncated(text: string) {
    |Split(text, CHUNK_CHARS)| > MAX_CHUNKS
  }

  /** A document of at most 48,000 characters is never truncated; one with more than 96,000 non-whitespace
      characters always is. */
  lemma TruncationThresholds(text: string)
    ensures |Strip(text)| <= 48000 ==> !Truncated(text)
    ensures |NonSpace(text)| > 96000 ==> Truncated(text)
  {
    NonSpaceStrip(text);
    var stripped := Strip(text);
    var n := |Chunks(stripped, CHUNK_CHARS)|;
    FewChunksHoldLittle(stripped, CHUNK_CHARS, n);
    WindowsIsProduct(n, CHUNK_CHARS);
    StripEnds(text);
    if n > 0 {
      ManyChunksNeedText(stripped, CHUNK_CHARS, n - 1);
      WindowsIsProduct(n - 1, CHUNK_CHARS);
    }
  }
}
