/** What the heading pattern accepts, told by its parts. */
module HeadingForm {
  import opened Options
  import opened Text
  import opened MachineText

  function Hashes(n: nat): (r: string)
    ensures |r| == n && forall i :: 0 <= i < n ==> r[i] == '#'
  {
    if n == 0 then "" else ['#'] + Hashes(n - 1)
  }

  /** The whitespace between the parts. */
  datatype Gaps = Gaps(afterHashes: string, afterWord: string, afterName: string, atEnd: string)

  function Bracketed(bracketed: bool, annotation: string): string {
    if bracketed then ['['] + annotation + [']'] else ""
  }

  /** A heading is hashes, the word `state`, an identifier and possibly an annotation in brackets, with whitespace
      between them that may be missing only around the annotation. */
  ghost predicate HasForm(raw: string, h: Heading, bracketed: bool, gaps: Gaps) {
    && h.level >= 1 && IsIdentifier(h.id) && ']' !in h.annotation && (!bracketed ==> h.annotation == "")
    && gaps.afterHashes != "" && gaps.afterWord != ""
    && AllSpace(gaps.afterHashes) && AllSpace(gaps.afterWord) && AllSpace(gaps.afterName) && AllSpace(gaps.atEnd)
    && raw == Hashes(h.level) + (gaps.afterHashes + ("state" + (gaps.afterWord
              + (h.id + (gaps.afterName + (Bracketed(bracketed, h.annotation) + gaps.atEnd))))))
  }

  lemma {:induction false} SkipGap(gap: string, rest: string)
    requires AllSpace(gap) && (rest == "" || !IsSpace(rest[0]))
    ensures LStrip(gap + rest) == rest
  {
    if gap == "" {
      assert gap + rest == rest;
    } else {
      assert (gap + rest)[0] == gap[0] && (gap + rest)[1..] == gap[1..] + rest;
      SkipGap(gap[1..], rest);
    }
  }

  lemma SpanOf(part: string, rest: string, p: char -> bool)
    requires (forall i :: 0 <= i < |part| ==> p(part[i])) && (rest == "" || !p(rest[0]))
    ensures Span(part + rest, p) == |part| && (part + rest)[..|part|] == part && (part + rest)[|part|..] == rest
  {
    SpanUnique(part + rest, p, |part|);
  }

  lemma AnnotationMatches(level: nat, id: string, annotation: string, bracketed: bool, atEnd: string)
    requires ']' !in annotation && (!bracketed ==> annotation == "") && AllSpace(atEnd)
    requires bracketed || atEnd == ""
    ensures MatchAnnotation(level, id, Bracketed(bracketed, annotation) + atEnd) == Some(Heading(level, id, annotation))
  {
    if bracketed {
      var rest := Bracketed(bracketed, annotation) + atEnd;
      assert rest[1..] == annotation + ([']'] + atEnd);
      SpanOf(annotation, [']'] + atEnd, c => c != ']');
      assert rest[|annotation| + 2..] == atEnd;
      assert rest[1..|annotation| + 1] == annotation;
    }
  }

  lemma NameMatches(level: nat, id: string, afterWord: string, afterName: string, tail: string)
    requires IsIdentifier(id) && AllSpace(afterWord) && afterWord != "" && AllSpace(afterName)
    requires tail == "" || (!IsSpace(tail[0]) && !IsIdChar(tail[0]))
    ensures MatchName(level, afterWord + (id + (afterName + tail))) == MatchAnnotation(level, id, tail)
  {
    assert !IsSpace(id[0]);
    SkipGap(afterWord, id + (afterName + tail));
    SpanOf(id, afterName + tail, IsIdChar);
    SkipGap(afterName, tail);
  }

  lemma WordMatches(level: nat, afterHashes: string, afterState: string)
    requires level >= 1 && AllSpace(afterHashes) && afterHashes != ""
    ensures MatchHeading(Hashes(level) + (afterHashes + ("state" + afterState))) == MatchName(level, afterState)
  {
    var rest := afterHashes + ("state" + afterState);
    SpanOf(Hashes(level), rest, c => c == '#');
    SkipGap(afterHashes, "state" + afterState);
    assert ("state" + afterState)[..5] == "state" && ("state" + afterState)[5..] == afterState;
  }

  /** Every line of the form is accepted, and read as its level, name and annotation. */
  lemma FormIsAccepted(raw: string, h: Heading, bracketed: bool, gaps: Gaps)
    requires HasForm(raw, h, bracketed, gaps)
    ensures MatchHeading(raw) == Some(h)
  {
    var end := Bracketed(bracketed, h.annotation) + gaps.atEnd;
    WordMatches(h.level, gaps.afterHashes, gaps.afterWord + (h.id + (gaps.afterName + end)));
    if bracketed {
      NameMatches(h.level, h.id, gaps.afterWord, gaps.afterName, end);
      AnnotationMatches(h.level, h.id, h.annotation, true, gaps.atEnd);
    } else {
      var space := gaps.afterName + gaps.atEnd;
      assert gaps.afterName + end == space + "";
      NameMatches(h.level, h.id, gaps.afterWord, space, "");
    }
  }

  lemma GapSplit(s: string) returns (gap: string)
    ensures AllSpace(gap) && s == gap + LStrip(s) && (LStrip(s) != "" ==> !IsSpace(LStrip(s)[0]))
    ensures s != "" && IsSpace(s[0]) ==> gap != ""
  {
    LStripDropsSpace(s);
    gap := s[..|s| - |LStrip(s)|];
  }

  lemma SpanSplit(s: string, p: char -> bool)
    ensures s == s[..Span(s, p)] + s[Span(s, p)..] && forall i :: 0 <= i < Span(s, p) ==> p(s[..Span(s, p)][i])
  {
    SpanIsLongest(s, p);
  }

  lemma AnnotationForm(level: nat, id: string, rest: string) returns (bracketed: bool, atEnd: string)
    requires MatchAnnotation(level, id, rest).Some?
    ensures var h := MatchAnnotation(level, id, rest).value;
            && h.level == level && h.id == id && ']' !in h.annotation && (!bracketed ==> h.annotation == "")
            && AllSpace(atEnd) && rest == Bracketed(bracketed, h.annotation) + atEnd
  {
    if rest == "" {
      return false, "";
    }
    var inside := rest[1..];
    var n := Span(inside, c => c != ']');
    SpanIsLongest(inside, c => c != ']');
    bracketed, atEnd := true, rest[n + 2..];
    assert rest[1..n + 1] == inside[..n];
    assert rest == ['['] + inside[..n] + [']'] + atEnd;
  }

  lemma NameForm(level: nat, afterState: string)
      returns (id: string, afterWord: string, afterName: string, tail: string)
    requires MatchName(level, afterState).Some?
    ensures IsIdentifier(id) && AllSpace(afterWord) && afterWord != "" && AllSpace(afterName)
    ensures afterState == afterWord + (id + (afterName + tail))
            && MatchName(level, afterState) == MatchAnnotation(level, id, tail)
  {
    afterWord := GapSplit(afterState);
    var name := LStrip(afterState);
    var n := Span(name, IsIdChar);
    SpanSplit(name, IsIdChar);
    id := name[..n];
    afterName := GapSplit(name[n..]);
    tail := LStrip(name[n..]);
  }

  lemma WordForm(raw: string) returns (level: nat, afterHashes: string, afterState: string)
    requires MatchHeading(raw).Some?
    ensures level >= 1 && AllSpace(afterHashes) && afterHashes != ""
    ensures raw == Hashes(level) + (afterHashes + ("state" + afterState))
            && MatchHeading(raw) == MatchName(level, afterState)
  {
    level := Span(raw, c => c == '#');
    SpanSplit(raw, c => c == '#');
    afterHashes := GapSplit(raw[level..]);
    var rest := LStrip(raw[level..]);
    afterState := rest[5..];
    assert rest == rest[..5] + rest[5..];
  }

  /** Every accepted line is of the form. */
  lemma AcceptedHasForm(raw: string) returns (bracketed: bool, gaps: Gaps)
    requires MatchHeading(raw).Some?
    ensures HasForm(raw, MatchHeading(raw).value, bracketed, gaps)
  {
    var level, afterHashes, afterState := WordForm(raw);
    var id, afterWord, afterName, tail := NameForm(level, afterState);
    var atEnd;
    bracketed, atEnd := AnnotationForm(level, id, tail);
    gaps := Gaps(afterHashes, afterWord, afterName, atEnd);
  }

  /** The pattern, both ways. */
  lemma HeadingIff(raw: string, h: Heading)
    ensures MatchHeading(raw) == Some(h) <==> exists bracketed, gaps :: HasForm(raw, h, bracketed, gaps)
  {
    if MatchHeading(raw) == Some(h) {
      var bracketed, gaps := AcceptedHasForm(raw);
    }
    forall bracketed, gaps | HasForm(raw, h, bracketed, gaps) ensures MatchHeading(raw) == Some(h) {
      FormIsAccepted(raw, h, bracketed, gaps);
    }
  }

  lemma ContainsIff(s: string, word: string)
    ensures Contains(s, word) <==> exists before, after :: s == before + word + after
  {
    if Contains(s, word) {
      var i := Occurrence(s, word);
      assert s == s[..i] + word + s[i + |word|..];
    }
    forall before, after | s == before + word + after ensures Contains(s, word) {
      Occurs(s, word, |before|);
    }
  }

  lemma Lacks(s: string, word: string)
    requires word != "" && forall i :: 0 <= i <= |s| - |word| ==> s[i] != word[0]
    ensures !Contains(s, word)
  {
    forall i | 0 <= i <= |s| ensures !StartsWith(s[i..], word) {
      if i + |word| <= |s| {
        assert s[i..][..|word|][0] == s[i];
      }
    }
  }

  /** The marks of the format: a state is initial, or final, exactly when its annotation holds that word somewhere;
      each mark alone sets its own flag and not the other. */
  lemma AnnotationFlags(level: nat, id: string, annotation: string, parent: Option<string>)
    ensures var state := ToState(Heading(level, id, annotation), parent);
            && state.id == id && state.parent == parent
            && (state.initial <==> exists before, after :: annotation == before + "initial" + after)
            && (state.final <==> exists before, after :: annotation == before + "final" + after)
    ensures ToState(Heading(level, id, "initial"), parent) == State(id, true, false, parent)
    ensures ToState(Heading(level, id, "final"), parent) == State(id, false, true, parent)
    ensures ToState(Heading(level, id, ""), parent) == State(id, false, false, parent)
  {
    ContainsIff(annotation, "initial");
    ContainsIff(annotation, "final");
    var first, last := "initial", "final";
    assert first[0..] == first && StartsWith(first[0..], first);
    assert last[0..] == last && StartsWith(last[0..], last);
    Lacks(first, last);
    Lacks(last, first);
    Lacks("", first);
    Lacks("", last);
  }
}
