/** Which fields a document must contain and which of them it does: a dictionary of flags that keeps the order
    in which names were first set. */
module Extraction {
  import opened Options
  import opened Text

  type Fields = seq<(string, bool)>

  const CONTRACT_REQUIRED := ["parties", "effective_date", "term", "signatures", "governing_law"]

  predicate HasField(fields: Fields, name: string) {
    exists i :: 0 <= i < |fields| && fields[i].0 == name
  }

  predicate DistinctNames(fields: Fields) {
    forall i, j :: 0 <= i < j < |fields| ==> fields[i].0 != fields[j].0
  }

  /** Assigning to a name: in place if it is there, at the end if it is new. */
  function SetField(fields: Fields, name: string, present: bool): Fields {
    if fields == [] then [(name, present)]
    else if fields[0].0 == name then [(name, present)] + fields[1..]
    else [fields[0]] + SetField(fields[1..], name, present)
  }

  lemma {:induction false} SetFieldIs(fields: Fields, name: string, present: bool)
    requires DistinctNames(fields)
    ensures var r := SetField(fields, name, present);
            && DistinctNames(r)
            && (name, present) in r
            && (forall f :: f in r <==> f == (name, present) || (f in fields && f.0 != name))
  {
    if fields != [] && fields[0].0 != name {
      SetFieldIs(fields[1..], name, present);
      var r := SetField(fields[1..], name, present);
      forall j | 0 <= j < |r| ensures r[j].0 != fields[0].0 {
        assert r[j] in r;
        if r[j] != (name, present) {
          assert r[j] in fields[1..];
        }
      }
    }
  }

  /** The names of the absent fields, in order. */
  function Missing(fields: Fields): seq<string> {
    if fields == [] then [] else (if fields[0].1 then [] else [fields[0].0]) + Missing(fields[1..])
  }

  predicate AllPresent(fields: Fields) {
    forall f :: f in fields ==> f.1
  }

  lemma {:induction false} MissingIs(fields: Fields)
    ensures Missing(fields) == [] <==> AllPresent(fields)
    ensures forall name :: name in Missing(fields) <==> (name, false) in fields
  {
    if fields != [] {
      MissingIs(fields[1..]);
      assert fields == [fields[0]] + fields[1..];
    }
  }

  /** The missing names are read off the fields one by one, in their order. */
  lemma {:induction false} MissingConcat(a: Fields, b: Fields)
    ensures Missing(a + b) == Missing(a) + Missing(b)
    ensures forall name :: Missing([(name, false)]) == [name] && Missing([(name, true)]) == []
  {
    if a == [] {
      assert a + b == b;
    } else {
      assert (a + b)[1..] == a[1..] + b;
      MissingConcat(a[1..], b);
    }
  }

  // ----- the classifier's answer -----

  /** An answer of the model: a document type, if any, and named items. */
  datatype Answer = BadJson | Answer(documentType: string, items: seq<(string, bool)>)

  function CleanName(raw: string): string {
    var name := Strip(raw);
    if |name| > 64 then name[..64] else name
  }

  /** A text without whitespace at its ends. */
  predicate Trimmed(s: string) {
    s != "" ==> !IsSpace(s[0]) && !IsSpace(s[|s| - 1])
  }

  /** A raw name without the whitespace around it, cut to 64 characters. */
  ghost predicate CleansTo(raw: string, name: string, before: string, core: string, after: string) {
    && raw == before + core + after && AllSpace(before) && AllSpace(after) && Trimmed(core)
    && name <= core && |name| == (if |core| <= 64 then |core| else 64)
  }

  lemma CleanNameIff(raw: string, name: string)
    ensures CleanName(raw) == name <==> exists before, core, after :: CleansTo(raw, name, before, core, after)
  {
    var before, core, after := StripApart(raw);
    if CleanName(raw) == name {
      assert CleansTo(raw, name, before, core, after);
    }
    forall a, k, b | CleansTo(raw, name, a, k, b) ensures CleanName(raw) == name {
      StripOuter(a, k, b);
      TrimmedIsStripped(k);
    }
  }

  lemma TrimmedIsStripped(s: string)
    requires Trimmed(s)
    ensures Strip(s) == s
  {
  }

  lemma StripApart(s: string) returns (before: string, core: string, after: string)
    ensures s == before + core + after && AllSpace(before) && AllSpace(after) && Trimmed(core) && core == Strip(s)
  {
    var l := LStrip(s);
    LStripDropsSpace(s);
    RStripDropsSpace(l);
    StripEnds(s);
    before, core, after := s[..|s| - |l|], Strip(s), l[|Strip(s)|..];
    ThreeParts(s, |s| - |l|, |core|);
  }

  lemma ThreeParts(s: string, lo: nat, n: nat)
    requires lo + n <= |s|
    ensures s == s[..lo] + s[lo..][..n] + s[lo..][n..]
  {
  }

  function Folded(items: seq<(string, bool)>): Fields {
    if items == [] then []
    else
      var init, item := Folded(items[..|items| - 1]), items[|items| - 1];
      if CleanName(item.0) == "" then init else SetField(init, CleanName(item.0), item.1)
  }

  /** The loop that folds the answer's items into the dictionary. */
  method FoldItems(items: seq<(string, bool)>) returns (fields: Fields)
    ensures fields == Folded(items)
  {
    fields := [];
    for i := 0 to |items|
      invariant fields == Folded(items[..i])
    {
      assert items[..i + 1][..i] == items[..i];
      var name := CleanName(items[i].0);
      if name != "" {
        fields := SetField(fields, name, items[i].1);
      }
    }
    assert items[..|items|] == items;
  }

  /** The last item of the answer with the given clean name, and the flag it carries. */
  predicate LastItem(items: seq<(string, bool)>, i: nat, name: string) {
    && i < |items| && CleanName(items[i].0) == name
    && forall j :: i < j < |items| ==> CleanName(items[j].0) != name
  }

  ghost predicate LastFlag(items: seq<(string, bool)>, name: string, present: bool) {
    exists i: nat :: LastItem(items, i, name) && items[i].1 == present
  }

  lemma LastFlagSnoc(items: seq<(string, bool)>, name: string, present: bool)
    requires items != []
    ensures var n := |items| - 1;
            LastFlag(items, name, present)
            <==> if CleanName(items[n].0) == name then items[n].1 == present else LastFlag(items[..n], name, present)
  {
    var n := |items| - 1;
    if CleanName(items[n].0) == name {
      assert LastItem(items, n, name);
    } else {
      assert forall j :: 0 <= j < n ==> items[..n][j] == items[j];
      assert forall i: nat :: i < n ==> (LastItem(items, i, name) <==> LastItem(items[..n], i, name));
    }
  }

  /** The folded dictionary holds each non-empty clean name once, with the flag of its last item. */
  lemma {:induction false} FoldedIsLast(items: seq<(string, bool)>)
    ensures DistinctNames(Folded(items))
    ensures forall name, present :: (name, present) in Folded(items) <==> name != "" && LastFlag(items, name, present)
  {
    if items != [] {
      var n := |items| - 1;
      var last := CleanName(items[n].0);
      FoldedIsLast(items[..n]);
      if last != "" {
        SetFieldIs(Folded(items[..n]), last, items[n].1);
      }
      forall name, present
        ensures (name, present) in Folded(items) <==> name != "" && LastFlag(items, name, present)
      {
        LastFlagSnoc(items, name, present);
      }
    }
  }

  function Names(fields: Fields): seq<string> {
    if fields == [] then [] else [fields[0].0] + Names(fields[1..])
  }

  /** The clean names of the items that have one. */
  function CleanNames(items: seq<(string, bool)>): seq<string> {
    if items == [] then []
    else
      var name := CleanName(items[|items| - 1].0);
      CleanNames(items[..|items| - 1]) + (if name == "" then [] else [name])
  }

  lemma NamesCons(field: (string, bool), fields: Fields)
    ensures Names([field] + fields) == [field.0] + Names(fields)
  {
  }

  lemma {:induction false} SetFieldNames(fields: Fields, name: string, present: bool)
    ensures Names(SetField(fields, name, present))
         == if name in Names(fields) then Names(fields) else Names(fields) + [name]
  {
    if fields != [] && fields[0].0 != name {
      SetFieldNames(fields[1..], name, present);
      NamesCons(fields[0], SetField(fields[1..], name, present));
      NamesCons(fields[0], fields[1..]);
    } else if fields != [] {
      NamesCons((name, present), fields[1..]);
    }
  }

  /** The dictionary keeps the names in the order in which the answer first gave them. */
  lemma {:induction false} FoldedInOrder(items: seq<(string, bool)>)
    ensures Names(Folded(items)) == FirstOccurrences(CleanNames(items))
  {
    if items != [] {
      var n := |items| - 1;
      FoldedInOrder(items[..n]);
      var name, before := CleanName(items[n].0), CleanNames(items[..n]);
      if name != "" {
        SetFieldNames(Folded(items[..n]), name, items[n].1);
        assert (before + [name])[..|before|] == before;
      } else {
        assert before + [] == before;
      }
    }
  }

  // ----- contracts -----

  const CONTRACT_LIKE := ["agreement", "contract", "lease", "license", "nda", "non-disclosure",
                          "terms of service", "terms and conditions", "memorandum of understanding", "mou", "addendum"]

  predicate IsContractLike(documentType: string) {
    exists k :: k in CONTRACT_LIKE && Contains(ToLower(documentType), k)
  }

  /** Whether the pattern of a contract field is found in lower-cased text; the patterns themselves are not part
      of the model. */
  type Detector = (string, string) -> bool

  function Detected(names: seq<string>, find: Detector, text: string): (r: Fields)
    ensures |r| == |names|
    ensures forall i :: 0 <= i < |r| ==> r[i] == (names[i], find(names[i], ToLower(text)))
  {
    if names == [] then []
    else [(names[0], find(names[0], ToLower(text)))] + Detected(names[1..], find, text)
  }

  function Merged(fields: Fields, core: Fields): Fields {
    if core == [] then fields
    else
      var before, field := Merged(fields, core[..|core| - 1]), core[|core| - 1];
      if HasField(before, field.0) then before else before + [field]
  }

  /** The loop that adds the core fields the answer left out. */
  method MergeCoreFields(fields: Fields, find: Detector, text: string) returns (merged: Fields)
    ensures merged == Merged(fields, Detected(CONTRACT_REQUIRED, find, text))
  {
    var core := Detected(CONTRACT_REQUIRED, find, text);
    merged := fields;
    for i := 0 to |core|
      invariant merged == Merged(fields, core[..i])
    {
      assert core[..i + 1][..i] == core[..i];
      if !HasField(merged, core[i].0) {
        merged := merged + [core[i]];
      }
    }
    assert core[..|core|] == core;
  }

  /** Merging keeps every field of the answer as it is, in front, and leaves no core field out. */
  lemma {:induction false} MergedKeepsAndCompletes(fields: Fields, core: Fields)
    requires DistinctNames(fields)
    ensures fields <= Merged(fields, core) && DistinctNames(Merged(fields, core))
    ensures forall f :: f in core ==> HasField(Merged(fields, core), f.0)
    ensures forall f :: f in Merged(fields, core) ==> f in fields || f in core
  {
    if core != [] {
      var n := |core| - 1;
      MergedKeepsAndCompletes(fields, core[..n]);
      var before, after := Merged(fields, core[..n]), Merged(fields, core);
      assert core == core[..n] + [core[n]];
      assert before <= after;
      forall f | f in core ensures HasField(after, f.0) {
        if f in core[..n] {
          var i :| 0 <= i < |before| && before[i].0 == f.0;
          assert after[i].0 == f.0;
        } else if !HasField(before, f.0) {
          assert after[|before|].0 == f.0;
        }
      }
    }
  }

  lemma HasFieldSnoc(fields: Fields, field: (string, bool), name: string)
    ensures HasField(fields + [field], name) <==> HasField(fields, name) || field.0 == name
  {
    var after := fields + [field];
    if HasField(fields, name) {
      var i :| 0 <= i < |fields| && fields[i].0 == name;
      assert after[i].0 == name;
    }
    assert after[|fields|] == field;
  }

  /** The core fields the answer has no name for, in order. */
  function Unnamed(fields: Fields, core: Fields): Fields {
    if core == [] then []
    else
      var field := core[|core| - 1];
      Unnamed(fields, core[..|core| - 1]) + (if HasField(fields, field.0) then [] else [field])
  }

  lemma {:induction false} UnnamedNames(fields: Fields, core: Fields, name: string)
    ensures HasField(Unnamed(fields, core), name) ==> HasField(core, name)
  {
    if core != [] {
      var n := |core| - 1;
      UnnamedNames(fields, core[..n], name);
      assert core == core[..n] + [core[n]];
      HasFieldSnoc(core[..n], core[n], name);
      if !HasField(fields, core[n].0) {
        HasFieldSnoc(Unnamed(fields, core[..n]), core[n], name);
      } else {
        assert Unnamed(fields, core) == Unnamed(fields, core[..n]);
      }
    }
  }

  lemma HasFieldConcat(a: Fields, b: Fields, name: string)
    ensures HasField(a + b, name) <==> HasField(a, name) || HasField(b, name)
  {
    if HasField(a, name) {
      var i :| 0 <= i < |a| && a[i].0 == name;
      assert (a + b)[i].0 == name;
    }
    if HasField(b, name) {
      var i :| 0 <= i < |b| && b[i].0 == name;
      assert (a + b)[|a| + i].0 == name;
    }
  }

  /** The merged dictionary is the answer's, and then the core fields it has no name for, in their order. */
  lemma {:induction false} MergedInOrder(fields: Fields, core: Fields)
    requires DistinctNames(core)
    ensures Merged(fields, core) == fields + Unnamed(fields, core)
  {
    if core == [] {
      assert fields + [] == fields;
    } else {
      var n := |core| - 1;
      MergedInOrder(fields, core[..n]);
      HasFieldConcat(fields, Unnamed(fields, core[..n]), core[n].0);
      UnnamedNames(fields, core[..n], core[n].0);
      assert !HasField(core[..n], core[n].0);
    }
  }

  /** The merged dictionary is the answer's with exactly the core fields it has no name for. */
  lemma {:induction false} MergedIs(fields: Fields, core: Fields)
    requires DistinctNames(core)
    ensures forall f :: f in Merged(fields, core) <==> f in fields || (f in core && !HasField(fields, f.0))
    ensures forall name :: HasField(Merged(fields, core), name) <==> HasField(fields, name) || HasField(core, name)
  {
    if core != [] {
      var n := |core| - 1;
      var before, field := Merged(fields, core[..n]), core[n];
      MergedIs(fields, core[..n]);
      assert core == core[..n] + [field];
      forall name ensures HasField(core, name) <==> HasField(core[..n], name) || field.0 == name {
        HasFieldSnoc(core[..n], field, name);
      }
      forall name ensures HasField(before + [field], name) <==> HasField(before, name) || field.0 == name {
        HasFieldSnoc(before, field, name);
      }
      assert !HasField(core[..n], field.0);
    }
  }

  lemma DistinctCore(find: Detector, text: string)
    ensures DistinctNames(Detected(CONTRACT_REQUIRED, find, text))
  {
    var names := CONTRACT_REQUIRED;
    assert |names[0]| == 7 && |names[1]| == 14 && |names[2]| == 4 && |names[3]| == 10 && |names[4]| == 13;
  }

  lemma DetectedFields(names: seq<string>, find: Detector, text: string)
    ensures forall k :: k in names ==> (k, find(k, ToLower(text))) in Detected(names, find, text)
    ensures forall f :: f in Detected(names, find, text) ==> f.0 in names && f.1 == find(f.0, ToLower(text))
  {
  }

  lemma CoreNames(find: Detector, text: string)
    ensures DistinctNames(Detected(CONTRACT_REQUIRED, find, text))
    ensures forall k :: k in CONTRACT_REQUIRED ==>
            k != "" && (k, find(k, ToLower(text))) in Detected(CONTRACT_REQUIRED, find, text)
    ensures forall f :: f in Detected(CONTRACT_REQUIRED, find, text) ==>
            f.0 in CONTRACT_REQUIRED && f.1 == find(f.0, ToLower(text))
  {
    DistinctCore(find, text);
    DetectedFields(CONTRACT_REQUIRED, find, text);
    NoEmptyCore();
  }

  lemma NoEmptyCore()
    ensures forall k :: k in CONTRACT_REQUIRED ==> k != ""
  {
  }
}
