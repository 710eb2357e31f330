/** The nested diagram: every composite state becomes a box that holds its children and the transitions
    between them. */
module Diagram {
  import opened Options
  import opened Text
  import opened MachineText
  import opened Hierarchy

  datatype Line =
    | Directive(text: string)
    | Label(id: string)
    | Start(id: string)
    | End(id: string)
    | OpenBox(id: string)
    | CloseBox
    | Edge(t: Transition)

  /** A line of content together with the box it stands in, if any. */
  type Placed = (Option<string>, Line)

  // ----- reading a diagram -----

  /** The content of a diagram, each line with the box that encloses it, when reading starts inside `box`. */
  function Read(lines: seq<Line>, box: Option<string>): seq<Placed> {
    if lines == [] then []
    else match lines[0]
      case Directive(_) => Read(lines[1..], box)
      case OpenBox(c) => Read(lines[1..], Some(c))
      case CloseBox => Read(lines[1..], None)
      case _ => [(box, lines[0])] + Read(lines[1..], box)
  }

  function BoxAfter(lines: seq<Line>, box: Option<string>): Option<string> {
    if lines == [] then box
    else match lines[0]
      case OpenBox(c) => BoxAfter(lines[1..], Some(c))
      case CloseBox => BoxAfter(lines[1..], None)
      case _ => BoxAfter(lines[1..], box)
  }

  lemma {:induction false} ReadConcat(a: seq<Line>, b: seq<Line>, box: Option<string>)
    ensures Read(a + b, box) == Read(a, box) + Read(b, BoxAfter(a, box))
    ensures BoxAfter(a + b, box) == BoxAfter(b, BoxAfter(a, box))
    decreases |a|
  {
    if a == [] {
      assert a + b == b;
    } else {
      assert (a + b)[1..] == a[1..] + b;
      match a[0] {
        case OpenBox(c) => ReadConcat(a[1..], b, Some(c));
        case CloseBox => ReadConcat(a[1..], b, None);
        case _ => ReadConcat(a[1..], b, box);
      }
    }
  }

  predicate IsContent(l: Line) {
    l.Label? || l.Start? || l.End? || l.Edge?
  }

  lemma {:induction false} ReadContent(lines: seq<Line>, box: Option<string>)
    requires forall l :: l in lines ==> IsContent(l)
    ensures BoxAfter(lines, box) == box
    ensures |Read(lines, box)| == |lines|
    ensures forall i :: 0 <= i < |lines| ==> Read(lines, box)[i] == (box, lines[i])
  {
    if lines != [] {
      assert IsContent(lines[0]);
      ReadContent(lines[1..], box);
    }
  }

  // ----- choosing and counting -----

  function Select<T>(s: seq<T>, p: T -> bool): seq<T> {
    if s == [] then []
    else
      var init, x := Select(s[..|s| - 1], p), s[|s| - 1];
      if p(x) then init + [x] else init
  }

  /** How often each line is wanted when every element that satisfies `p` asks for the line `f` gives it. */
  ghost function Wanted<T>(s: seq<T>, p: T -> bool, f: T -> Placed): multiset<Placed> {
    if s == [] then multiset{}
    else
      var init, x := Wanted(s[..|s| - 1], p, f), s[|s| - 1];
      if p(x) then init + multiset{f(x)} else init
  }

  lemma {:induction false} WantedUnion<T(!new)>(s: seq<T>, p: T -> bool, q: T -> bool, r: T -> bool, f: T -> Placed)
    requires forall x :: x in s ==> (r(x) <==> p(x) || q(x)) && !(p(x) && q(x))
    ensures Wanted(s, r, f) == Wanted(s, p, f) + Wanted(s, q, f)
  {
    if s != [] {
      assert s[|s| - 1] in s;
      WantedUnion(s[..|s| - 1], p, q, r, f);
    }
  }

  lemma {:induction false} WantedSame<T(!new)>(s: seq<T>, p: T -> bool, q: T -> bool, f: T -> Placed, g: T -> Placed)
    requires forall x :: x in s ==> (p(x) <==> q(x)) && (p(x) ==> f(x) == g(x))
    ensures Wanted(s, p, f) == Wanted(s, q, g)
  {
    if s != [] {
      assert s[|s| - 1] in s;
      WantedSame(s[..|s| - 1], p, q, f, g);
    }
  }

  lemma {:induction false} WantedOfSelected<T(!new)>(s: seq<T>, p: T -> bool, q: T -> bool, r: T -> bool,
                                              f: T -> Placed)
    requires forall x :: x in s ==> (r(x) <==> p(x) && q(x))
    ensures Wanted(Select(s, p), q, f) == Wanted(s, r, f)
  {
    if s != [] {
      var n := |s| - 1;
      assert s[n] in s;
      WantedOfSelected(s[..n], p, q, r, f);
      if p(s[n]) {
        assert (Select(s[..n], p) + [s[n]])[..|Select(s[..n], p)|] == Select(s[..n], p);
      }
    }
  }

  // ----- sorting the composites by id -----

  predicate LexLe(a: string, b: string) {
    a == "" || (b != "" && (a[0] < b[0] || (a[0] == b[0] && LexLe(a[1..], b[1..]))))
  }

  lemma {:induction false} LexTotal(a: string, b: string)
    ensures LexLe(a, b) || LexLe(b, a)
  {
    if a != "" && b != "" {
      LexTotal(a[1..], b[1..]);
    }
  }

  /** `a` comes before `b` or is `b`: it is a beginning of `b`, or has the smaller character where they first differ. */
  ghost predicate Before(a: string, b: string, k: nat) {
    && k <= |a| && k <= |b| && a[..k] == b[..k]
    && (k == |a| || (k < |b| && a[k] < b[k]))
  }

  lemma {:induction false} LexLeIff(a: string, b: string)
    ensures LexLe(a, b) <==> exists k: nat :: Before(a, b, k)
  {
    if a == "" {
      assert Before(a, b, 0);
    } else if b != "" && a[0] == b[0] {
      LexLeIff(a[1..], b[1..]);
      if LexLe(a, b) {
        var k: nat :| Before(a[1..], b[1..], k);
        SameHead(a, b, k);
      }
      forall k: nat | Before(a, b, k) ensures LexLe(a, b) {
        SameHead(a, b, k - 1);
      }
    } else {
      assert Before(a, b, 0) <==> b != "" && a[0] < b[0];
      assert forall k: nat :: k > 0 && k <= |a| && k <= |b| ==> a[..k][0] != b[..k][0];
    }
  }

  lemma SameHead(a: string, b: string, k: nat)
    requires a != "" && b != "" && a[0] == b[0]
    ensures Before(a, b, k + 1) <==> Before(a[1..], b[1..], k)
  {
    if k < |a| && k < |b| {
      assert a[..k + 1] == [a[0]] + a[1..][..k] && b[..k + 1] == [b[0]] + b[1..][..k];
      assert a[1..][..k] == a[..k + 1][1..] && b[1..][..k] == b[..k + 1][1..];
    }
  }

  predicate Sorted(ids: seq<string>) {
    forall i :: 0 < i < |ids| ==> LexLe(ids[i - 1], ids[i])
  }

  function Insert(x: string, ids: seq<string>): (r: seq<string>)
    requires Sorted(ids)
    ensures Sorted(r) && multiset(r) == multiset(ids) + multiset{x}
    ensures r[0] == x || (ids != [] && r[0] == ids[0])
  {
    LexTotal(x, if ids == [] then "" else ids[0]);
    if ids == [] then [x]
    else if LexLe(x, ids[0]) then [x] + ids
    else
      assert ids == [ids[0]] + ids[1..];
      [ids[0]] + Insert(x, ids[1..])
  }

  function SortIds(ids: seq<string>): (r: seq<string>)
    ensures Sorted(r) && multiset(r) == multiset(ids)
  {
    if ids == [] then []
    else
      assert ids == ids[..|ids| - 1] + [ids[|ids| - 1]];
      Insert(ids[|ids| - 1], SortIds(ids[..|ids| - 1]))
  }

  // ----- what a diagram should hold -----

  /** Every parent is a declared state. */
  ghost predicate ParentsDeclared(states: seq<State>) {
    forall s :: s in states && s.parent.Some? ==> exists p :: p in states && p.id == s.parent.value
  }

  predicate IsComposite(states: seq<State>, sid: string) {
    exists s :: s in states && s.parent == Some(sid)
  }

  /** The box a transition belongs to: that of the composite both its ends are children of. */
  function Home(states: seq<State>, t: Transition): Option<string> {
    var ps := ParentOf(states, t.source);
    if ps.Some? && ps == ParentOf(states, t.target) then ps else None
  }

  function LabelAt(s: State): Placed { (s.parent, Label(s.id)) }

  function StartAt(s: State): Placed { (s.parent, Start(s.id)) }

  function EndAt(s: State): Placed { (s.parent, End(s.id)) }

  function EdgeAt(states: seq<State>): Transition -> Placed {
    (t: Transition) => (Home(states, t), Edge(t))
  }

  /** A state that is declared by a line of its own, not by the title of a box. */
  function Labelled(states: seq<State>): State -> bool {
    (s: State) => s.parent.Some? || !IsComposite(states, s.id)
  }

  predicate Initial(s: State) { s.initial }

  predicate Final(s: State) { s.final }

  predicate Always<T>(x: T) { true }

  /** The content a diagram of the machine should have, up to order: every state labelled once in its parent's
      box, or outside all boxes when it has neither parent nor box; every initial and final mark in the same
      place; every transition once, in the box of the composite both its ends are children of, and outside all
      boxes if there is none. */
  ghost function Expected(states: seq<State>, ts: seq<Transition>): multiset<Placed> {
    Wanted(states, Labelled(states), LabelAt)
    + Wanted(states, Initial, StartAt)
    + Wanted(states, Final, EndAt)
    + Wanted(ts, Always, EdgeAt(states))
  }

  // ----- the emitter -----

  function ChildrenOf(c: string): State -> bool {
    (s: State) => s.parent == Some(c)
  }

  /** The children grouped by parent: `order` lists each parent once. */
  ghost predicate Grouped(states: seq<State>, children: map<string, seq<State>>, order: seq<string>) {
    && (forall c :: c in children <==> IsComposite(states, c))
    && (forall c :: c in children ==> children[c] == Select(states, ChildrenOf(c)))
    && (forall c :: multiset(order)[c] == if c in children then 1 else 0)
  }

  lemma GroupStep(states: seq<State>, i: nat)
    requires i < |states|
    ensures forall c :: IsComposite(states[..i + 1], c) <==> IsComposite(states[..i], c) || states[i].parent == Some(c)
    ensures forall c :: Select(states[..i + 1], ChildrenOf(c))
                     == Select(states[..i], ChildrenOf(c)) + if states[i].parent == Some(c) then [states[i]] else []
  {
    assert states[..i + 1][..i] == states[..i];
    assert states[..i + 1] == states[..i] + [states[i]];
  }

  lemma {:induction false} SelectNone(states: seq<State>, c: string)
    requires !IsComposite(states, c)
    ensures Select(states, ChildrenOf(c)) == []
  {
    if states != [] {
      assert states[|states| - 1] in states;
      SelectNone(states[..|states| - 1], c);
    }
  }

  method GroupChildren(states: seq<State>) returns (children: map<string, seq<State>>, order: seq<string>)
    ensures Grouped(states, children, order)
  {
    children, order := map[], [];
    for i := 0 to |states|
      invariant Grouped(states[..i], children, order)
    {
      GroupStep(states, i);
      if states[i].parent.Some? {
        var p := states[i].parent.value;
        if p !in children {
          SelectNone(states[..i], p);
          children, order := children[p := []], order + [p];
        }
        children := children[p := children[p] + [states[i]]];
      }
    }
    assert states[..|states|] == states;
  }

  /** Transitions whose home is the given box. */
  function AtHome(states: seq<State>, box: Option<string>): Transition -> bool {
    (t: Transition) => Home(states, t) == box
  }

  lemma SelectStep<T>(s: seq<T>, i: nat, p: T -> bool)
    requires i < |s|
    ensures Select(s[..i + 1], p) == Select(s[..i], p) + if p(s[i]) then [s[i]] else []
  {
    assert s[..i + 1][..i] == s[..i];
  }

  lemma HomeIsComposite(states: seq<State>, t: Transition)
    ensures Home(states, t).Some? ==> IsComposite(states, Home(states, t).value)
  {
    ParentOfDeclared(states, t.source);
    if Home(states, t).Some? {
      var i :| 0 <= i < |states| && states[i].parent == Home(states, t);
      assert states[i] in states;
    }
  }

  /** The transitions read so far, each in its box or outside all. */
  ghost predicate SortedInto(states: seq<State>, ts: seq<Transition>, composites: set<string>,
                             inner: map<string, seq<Transition>>, toplevel: seq<Transition>) {
    && inner.Keys == composites
    && (forall c :: c in inner ==> inner[c] == Select(ts, AtHome(states, Some(c))))
    && toplevel == Select(ts, AtHome(states, None))
  }

  lemma SortStep(states: seq<State>, ts: seq<Transition>, i: nat, composites: set<string>,
                 inner: map<string, seq<Transition>>, toplevel: seq<Transition>)
    requires i < |ts| && SortedInto(states, ts[..i], composites, inner, toplevel)
    requires forall c :: IsComposite(states, c) ==> c in composites
    ensures match Home(states, ts[i])
            case Some(c) =>
              c in inner && SortedInto(states, ts[..i + 1], composites, inner[c := inner[c] + [ts[i]]], toplevel)
            case None => SortedInto(states, ts[..i + 1], composites, inner, toplevel + [ts[i]])
  {
    forall c { SelectStep(ts, i, AtHome(states, Some(c))); }
    SelectStep(ts, i, AtHome(states, None));
    if Home(states, ts[i]).Some? {
      HomeIsComposite(states, ts[i]);
    }
  }

  /** The transitions sorted into boxes; every lookup of a box succeeds. */
  method SortTransitions(states: seq<State>, ts: seq<Transition>, composites: set<string>)
    returns (inner: map<string, seq<Transition>>, toplevel: seq<Transition>)
    requires forall c :: IsComposite(states, c) ==> c in composites
    ensures inner.Keys == composites
    ensures forall c :: c in inner ==> inner[c] == Select(ts, AtHome(states, Some(c)))
    ensures toplevel == Select(ts, AtHome(states, None))
  {
    inner, toplevel := map c | c in composites :: [], [];
    for i := 0 to |ts|
      invariant SortedInto(states, ts[..i], composites, inner, toplevel)
    {
      SortStep(states, ts, i, composites, inner, toplevel);
      var t := ts[i];
      var ps, pt := ParentOf(states, t.source), ParentOf(states, t.target);
      if ps.Some? && ps == pt {
        inner := inner[ps.value := inner[ps.value] + [t]];
      } else {
        toplevel := toplevel + [t];
      }
    }
    assert ts[..|ts|] == ts;
  }

  /** What belongs into one box. */
  ghost function BoxContent(states: seq<State>, ts: seq<Transition>, c: string): multiset<Placed> {
    Wanted(states, ChildrenOf(c), LabelAt)
    + Wanted(states, Both(ChildrenOf(c), Initial), StartAt)
    + Wanted(states, Both(ChildrenOf(c), Final), EndAt)
    + Wanted(ts, AtHome(states, Some(c)), EdgeAt(states))
  }

  function Both<T>(p: T -> bool, q: T -> bool): T -> bool {
    (x: T) => p(x) && q(x)
  }

  ghost function BoxesContent(states: seq<State>, ts: seq<Transition>, cs: seq<string>): multiset<Placed> {
    if cs == [] then multiset{}
    else BoxesContent(states, ts, cs[..|cs| - 1]) + BoxContent(states, ts, cs[|cs| - 1])
  }

  /** What belongs outside all boxes. */
  ghost function TopContent(states: seq<State>, ts: seq<Transition>): multiset<Placed> {
    Wanted(states, Both(IsTop, Labelled(states)), LabelAt)
    + Wanted(states, Both(IsTop, Initial), StartAt)
    + Wanted(states, Both(IsTop, Final), EndAt)
    + Wanted(ts, AtHome(states, None), EdgeAt(states))
  }

  predicate IsTop(s: State) { s.parent.None? }

  function Under(cs: seq<string>): State -> bool {
    (s: State) => s.parent.Some? && s.parent.value in cs
  }

  function HomeIn(states: seq<State>, cs: seq<string>): Transition -> bool {
    (t: Transition) => Home(states, t).Some? && Home(states, t).value in cs
  }

  /** The boxes of distinct composites together hold the content of all children of those composites. */
  lemma {:induction false} BoxesHold(states: seq<State>, ts: seq<Transition>, cs: seq<string>)
    requires forall c :: multiset(cs)[c] <= 1
    ensures BoxesContent(states, ts, cs)
         == Wanted(states, Under(cs), LabelAt) + Wanted(states, Both(Under(cs), Initial), StartAt)
            + Wanted(states, Both(Under(cs), Final), EndAt) + Wanted(ts, HomeIn(states, cs), EdgeAt(states))
  {
    if cs == [] {
      WantedNone(states, Under(cs), LabelAt);
      WantedNone(states, Both(Under(cs), Initial), StartAt);
      WantedNone(states, Both(Under(cs), Final), EndAt);
      WantedNone(ts, HomeIn(states, cs), EdgeAt(states));
    } else {
      var init, c := cs[..|cs| - 1], cs[|cs| - 1];
      assert cs == init + [c];
      assert c !in init by { assert multiset(cs)[c] == multiset(init)[c] + 1; }
      assert forall d :: multiset(init)[d] <= multiset(cs)[d];
      BoxesHold(states, ts, init);
      Regroup(Wanted(states, Under(init), LabelAt), Wanted(states, Both(Under(init), Initial), StartAt),
              Wanted(states, Both(Under(init), Final), EndAt), Wanted(ts, HomeIn(states, init), EdgeAt(states)),
              Wanted(states, ChildrenOf(c), LabelAt), Wanted(states, Both(ChildrenOf(c), Initial), StartAt),
              Wanted(states, Both(ChildrenOf(c), Final), EndAt), Wanted(ts, AtHome(states, Some(c)), EdgeAt(states)));
      WantedUnion(states, Under(init), ChildrenOf(c), Under(cs), LabelAt);
      WantedUnion(states, Both(Under(init), Initial), Both(ChildrenOf(c), Initial), Both(Under(cs), Initial), StartAt);
      WantedUnion(states, Both(Under(init), Final), Both(ChildrenOf(c), Final), Both(Under(cs), Final), EndAt);
      WantedUnion(ts, HomeIn(states, init), AtHome(states, Some(c)), HomeIn(states, cs), EdgeAt(states));
    }
  }

  lemma {:induction false} WantedNone<T(!new)>(s: seq<T>, p: T -> bool, f: T -> Placed)
    requires forall x :: x in s ==> !p(x)
    ensures Wanted(s, p, f) == multiset{}
  {
    if s != [] {
      assert s[|s| - 1] in s;
      WantedNone(s[..|s| - 1], p, f);
    }
  }

  lemma Regroup<T>(a: multiset<T>, b: multiset<T>, c: multiset<T>, d: multiset<T>,
                   a': multiset<T>, b': multiset<T>, c': multiset<T>, d': multiset<T>)
    ensures a + b + c + d + (a' + b' + c' + d') == (a + a') + (b + b') + (c + c') + (d + d')
  {
  }

  lemma UnderAll(states: seq<State>, ts: seq<Transition>, cs: seq<string>)
    requires forall c :: multiset(cs)[c] == if IsComposite(states, c) then 1 else 0
    ensures forall s :: s in states ==> (Under(cs)(s) <==> s.parent.Some?)
    ensures forall t :: t in ts ==> (HomeIn(states, cs)(t) <==> Home(states, t).Some?)
  {
    forall c ensures c in cs <==> IsComposite(states, c) {
      assert c in cs <==> multiset(cs)[c] > 0;
    }
    forall t | t in ts ensures HomeIn(states, cs)(t) <==> Home(states, t).Some? {
      HomeIsComposite(states, t);
    }
    forall s | s in states && s.parent.Some? ensures Under(cs)(s) {
      assert IsComposite(states, s.parent.value);
    }
  }

  /** Nothing is missing and nothing is there twice when the boxes of all composites are drawn. */
  lemma ContentComplete(states: seq<State>, ts: seq<Transition>, cs: seq<string>)
    requires forall c :: multiset(cs)[c] == if IsComposite(states, c) then 1 else 0
    ensures TopContent(states, ts) + BoxesContent(states, ts, cs) == Expected(states, ts)
  {
    assert BoxesContent(states, ts, cs)
        == Wanted(states, Under(cs), LabelAt) + Wanted(states, Both(Under(cs), Initial), StartAt)
           + Wanted(states, Both(Under(cs), Final), EndAt) + Wanted(ts, HomeIn(states, cs), EdgeAt(states)) by {
      BoxesHold(states, ts, cs);
    }
    UnderAll(states, ts, cs);
    WantedUnion(states, Both(IsTop, Labelled(states)), Under(cs), Labelled(states), LabelAt);
    WantedUnion(states, Both(IsTop, Initial), Both(Under(cs), Initial), Initial, StartAt);
    WantedUnion(states, Both(IsTop, Final), Both(Under(cs), Final), Final, EndAt);
    WantedUnion(ts, AtHome(states, None), HomeIn(states, cs), Always, EdgeAt(states));
    Regroup(Wanted(states, Both(IsTop, Labelled(states)), LabelAt), Wanted(states, Both(IsTop, Initial), StartAt),
            Wanted(states, Both(IsTop, Final), EndAt), Wanted(ts, AtHome(states, None), EdgeAt(states)),
            Wanted(states, Under(cs), LabelAt), Wanted(states, Both(Under(cs), Initial), StartAt),
            Wanted(states, Both(Under(cs), Final), EndAt), Wanted(ts, HomeIn(states, cs), EdgeAt(states)));
  }

  // ----- the emitter's loops -----

  function LabelOf(s: State): Line { Label(s.id) }

  function StartOf(s: State): Line { Start(s.id) }

  function EndOf(s: State): Line { End(s.id) }

  function EdgeOf(t: Transition): Line { Edge(t) }

  ghost function InBox<T(!new)>(box: Option<string>, f: T -> Line): T -> Placed {
    (x: T) => (box, f(x))
  }

  /** The titles of the boxes, in order. */
  function Titles(lines: seq<Line>): seq<string> {
    if lines == [] then []
    else Titles(lines[..|lines| - 1]) + match lines[|lines| - 1] case OpenBox(c) => [c] case _ => []
  }

  lemma {:induction false} TitlesConcat(a: seq<Line>, b: seq<Line>)
    ensures Titles(a + b) == Titles(a) + Titles(b)
  {
    if b == [] {
      assert a + b == a;
    } else {
      assert (a + b)[..|a + b| - 1] == a + b[..|b| - 1];
      TitlesConcat(a, b[..|b| - 1]);
    }
  }

  /** A line for every element that satisfies `p`, in order. */
  function LinesWhere<T>(s: seq<T>, p: T -> bool, f: T -> Line): seq<Line> {
    if s == [] then []
    else LinesWhere(s[..|s| - 1], p, f) + if p(s[|s| - 1]) then [f(s[|s| - 1])] else []
  }

  lemma LinesWhereStep<T>(s: seq<T>, i: nat, p: T -> bool, f: T -> Line)
    requires i < |s|
    ensures LinesWhere(s[..i + 1], p, f) == LinesWhere(s[..i], p, f) + if p(s[i]) then [f(s[i])] else []
  {
    assert s[..i + 1][..i] == s[..i];
  }

  lemma {:induction false} LinesWhereSame<T(!new)>(s: seq<T>, p: T -> bool, q: T -> bool, f: T -> Line)
    requires forall x :: x in s ==> (p(x) <==> q(x))
    ensures LinesWhere(s, p, f) == LinesWhere(s, q, f)
  {
    if s != [] {
      assert s[|s| - 1] in s;
      LinesWhereSame(s[..|s| - 1], p, q, f);
    }
  }

  method EmitWhere<T>(out: seq<Line>, s: seq<T>, p: T -> bool, f: T -> Line) returns (out': seq<Line>)
    ensures out' == out + LinesWhere(s, p, f)
  {
    out' := out;
    for i := 0 to |s|
      invariant out' == out + LinesWhere(s[..i], p, f)
    {
      LinesWhereStep(s, i, p, f);
      if p(s[i]) {
        out' := out' + [f(s[i])];
      }
    }
    assert s[..|s|] == s;
  }

  /** The record the dictionary holds for a declared id. */
  function Declaration(states: seq<State>, sid: string): (s: State)
    requires exists p :: p in states && p.id == sid
    ensures s.id == sid
  {
    if states[|states| - 1].id == sid then states[|states| - 1]
    else
      assert states == states[..|states| - 1] + [states[|states| - 1]];
      Declaration(states[..|states| - 1], sid)
  }

  /** Everything the box of `c` is drawn from can be looked up. */
  ghost predicate Ready(states: seq<State>, ts: seq<Transition>, children: map<string, seq<State>>,
                        inner: map<string, seq<Transition>>, c: string) {
    && c in children && children[c] == Select(states, ChildrenOf(c))
    && c in inner && inner[c] == Select(ts, AtHome(states, Some(c)))
    && exists p :: p in states && p.id == c
  }

  /** What stands in the box of `c`, in order: its children, the initial ones, the final ones, its own transitions. */
  function Inside(states: seq<State>, ts: seq<Transition>, c: string): seq<Line> {
    var kids := Select(states, ChildrenOf(c));
    LinesWhere(kids, Always, LabelOf) + LinesWhere(kids, Initial, StartOf) + LinesWhere(kids, Final, EndOf)
    + LinesWhere(Select(ts, AtHome(states, Some(c))), Always, EdgeOf)
  }

  function BoxLines(states: seq<State>, ts: seq<Transition>, c: string): seq<Line> {
    [OpenBox(c)] + Inside(states, ts, c) + [CloseBox]
  }

  /** One box: its title, its children with their marks, and its own transitions. */
  method EmitBox(out: seq<Line>, states: seq<State>, ghost ts: seq<Transition>, c: string,
                 children: map<string, seq<State>>, inner: map<string, seq<Transition>>) returns (out': seq<Line>)
    requires Ready(states, ts, children, inner, c)
    ensures out' == out + BoxLines(states, ts, c)
  {
    var title := OpenBox(Declaration(states, c).id);
    var kids := children[c];
    out' := EmitWhere(out + [title], kids, Always, LabelOf);
    out' := EmitWhere(out', kids, Initial, StartOf);
    out' := EmitWhere(out', kids, Final, EndOf);
    out' := EmitWhere(out', inner[c], Always, EdgeOf);
    BoxConcat(out, [title], LinesWhere(kids, Always, LabelOf), LinesWhere(kids, Initial, StartOf),
              LinesWhere(kids, Final, EndOf), LinesWhere(inner[c], Always, EdgeOf), [CloseBox]);
    out' := out' + [CloseBox];
  }

  lemma BoxConcat<T>(out: seq<T>, t: seq<T>, a: seq<T>, b: seq<T>, c: seq<T>, d: seq<T>, z: seq<T>)
    ensures out + t + a + b + c + d + z == out + (t + (a + b + c + d) + z)
  {
  }

  lemma EdgesWanted(states: seq<State>, ts: seq<Transition>, box: Option<string>)
    ensures Wanted(Select(ts, AtHome(states, box)), Always, InBox(box, EdgeOf))
         == Wanted(ts, AtHome(states, box), EdgeAt(states))
  {
    WantedOfSelected(ts, AtHome(states, box), Always, AtHome(states, box), InBox(box, EdgeOf));
    WantedSame(ts, AtHome(states, box), AtHome(states, box), InBox(box, EdgeOf), EdgeAt(states));
  }

  lemma KidsWanted(states: seq<State>, c: string, q: State -> bool, r: State -> bool, f: State -> Line,
                   g: State -> Placed)
    requires forall s :: s in states ==> (r(s) <==> ChildrenOf(c)(s) && q(s))
    requires forall s :: ChildrenOf(c)(s) ==> g(s) == (Some(c), f(s))
    ensures Wanted(Select(states, ChildrenOf(c)), q, InBox(Some(c), f)) == Wanted(states, r, g)
  {
  }

  lemma TopWanted(states: seq<State>, q: State -> bool, r: State -> bool, f: State -> Line, g: State -> Placed)
    requires forall s :: s in states ==> (q(s) <==> IsTop(s) && r(s))
    requires forall s :: IsTop(s) ==> g(s) == (None, f(s))
    ensures Wanted(states, q, InBox(None, f)) == Wanted(states, Both(IsTop, r), g)
  {
  }

  function Unboxed(composites: set<string>): State -> bool {
    (s: State) => IsTop(s) && s.id !in composites
  }

  const HEADER := [Directive("stateDiagram-v2"), Directive("  direction LR"), Directive("")]

  /** The header, and the labels and marks of the states outside all boxes, in order. */
  function TopLines(states: seq<State>): seq<Line> {
    HEADER
    + LinesWhere(states, Both(IsTop, Labelled(states)), LabelOf)
    + LinesWhere(states, Both(IsTop, Initial), StartOf)
    + LinesWhere(states, Both(IsTop, Final), EndOf)
  }

  method EmitTop(states: seq<State>, composites: set<string>) returns (out: seq<Line>)
    requires forall c :: c in composites <==> IsComposite(states, c)
    ensures out == TopLines(states)
  {
    out := EmitWhere(HEADER, states, Unboxed(composites), LabelOf);
    LinesWhereSame(states, Unboxed(composites), Both(IsTop, Labelled(states)), LabelOf);
    out := EmitWhere(out, states, Both(IsTop, Initial), StartOf);
    out := EmitWhere(out, states, Both(IsTop, Final), EndOf);
  }

  function BoxesLines(states: seq<State>, ts: seq<Transition>, cs: seq<string>): seq<Line> {
    if cs == [] then [] else BoxesLines(states, ts, cs[..|cs| - 1]) + BoxLines(states, ts, cs[|cs| - 1])
  }

  lemma BoxesStep(out: seq<Line>, states: seq<State>, ts: seq<Transition>, cs: seq<string>, i: nat)
    requires i < |cs|
    ensures out + BoxesLines(states, ts, cs[..i]) + BoxLines(states, ts, cs[i])
         == out + BoxesLines(states, ts, cs[..i + 1])
  {
    var before, one := BoxesLines(states, ts, cs[..i]), BoxLines(states, ts, cs[i]);
    assert cs[..i + 1][..i] == cs[..i];
    assert BoxesLines(states, ts, cs[..i + 1]) == before + one;
    ThreeConcat(out, before, one);
  }

  lemma ThreeConcat<T>(a: seq<T>, b: seq<T>, c: seq<T>)
    ensures a + b + c == a + (b + c)
  {
  }

  /** All boxes, in the given order. */
  method EmitBoxes(out: seq<Line>, states: seq<State>, ghost ts: seq<Transition>, sorted: seq<string>,
                   children: map<string, seq<State>>, inner: map<string, seq<Transition>>) returns (out': seq<Line>)
    requires forall i :: 0 <= i < |sorted| ==> Ready(states, ts, children, inner, sorted[i])
    ensures out' == out + BoxesLines(states, ts, sorted)
  {
    out' := out;
    for i := 0 to |sorted|
      invariant out' == out + BoxesLines(states, ts, sorted[..i])
    {
      assert Ready(states, ts, children, inner, sorted[i]);
      BoxesStep(out, states, ts, sorted, i);
      out' := EmitBox(out', states, ts, sorted[i], children, inner);
    }
    assert sorted[..|sorted|] == sorted;
  }

  /** The whole diagram, line by line, for composites in the order `cs`: what stands outside all boxes, the boxes, and
      last the transitions at home in no box. */
  function DiagramLines(states: seq<State>, ts: seq<Transition>, cs: seq<string>): seq<Line> {
    TopLines(states) + BoxesLines(states, ts, cs) + LinesWhere(Select(ts, AtHome(states, None)), Always, EdgeOf)
  }

  /** Every composite once. */
  ghost predicate ListsComposites(states: seq<State>, cs: seq<string>) {
    forall c :: multiset(cs)[c] == if IsComposite(states, c) then 1 else 0
  }

  /** The emitter.  Every lookup it makes succeeds on a machine whose parents are declared, and the lines are exactly
      those of the diagram, in order, with one box for each composite, in the order of the ids. */
  method BuildDiagram(states: seq<State>, ts: seq<Transition>) returns (out: seq<Line>)
    requires ParentsDeclared(states)
    ensures out == DiagramLines(states, ts, Titles(out))
    ensures Sorted(Titles(out)) && ListsComposites(states, Titles(out))
    ensures multiset(Read(out, None)) == Expected(states, ts)
  {
    var children, order := GroupChildren(states);
    var inner, toplevel := SortTransitions(states, ts, children.Keys);
    out := EmitTop(states, children.Keys);
    var sorted := SortIds(order);
    forall i | 0 <= i < |sorted| ensures Ready(states, ts, children, inner, sorted[i]) {
      assert multiset(sorted)[sorted[i]] > 0;
    }
    out := EmitBoxes(out, states, ts, sorted, children, inner);
    out := EmitWhere(out, toplevel, Always, EdgeOf);
    DiagramContent(states, ts, sorted);
  }

  // ----- what the lines of a diagram hold -----

  /** Lines within one box, or outside all, and what they hold. */
  ghost predicate Holds(lines: seq<Line>, box: Option<string>, content: multiset<Placed>) {
    BoxAfter(lines, box) == box && multiset(Read(lines, box)) == content && Titles(lines) == []
  }

  /** Whole boxes and lines outside all of them. */
  ghost predicate Draws(lines: seq<Line>, cs: seq<string>, content: multiset<Placed>) {
    BoxAfter(lines, None) == None && multiset(Read(lines, None)) == content && Titles(lines) == cs
  }

  lemma HoldsConcat(a: seq<Line>, b: seq<Line>, box: Option<string>, m: multiset<Placed>, n: multiset<Placed>)
    requires Holds(a, box, m) && Holds(b, box, n)
    ensures Holds(a + b, box, m + n)
  {
    ReadConcat(a, b, box);
    TitlesConcat(a, b);
  }

  lemma DrawsConcat(a: seq<Line>, b: seq<Line>, cs: seq<string>, ds: seq<string>, m: multiset<Placed>,
                    n: multiset<Placed>)
    requires Draws(a, cs, m) && Draws(b, ds, n)
    ensures Draws(a + b, cs + ds, m + n)
  {
    ReadConcat(a, b, None);
    TitlesConcat(a, b);
  }

  lemma {:induction false} LinesHold<T(!new)>(s: seq<T>, p: T -> bool, f: T -> Line, box: Option<string>)
    requires forall x :: p(x) ==> IsContent(f(x))
    ensures Holds(LinesWhere(s, p, f), box, Wanted(s, p, InBox(box, f)))
  {
    if s != [] {
      var init, x := s[..|s| - 1], s[|s| - 1];
      LinesHold(init, p, f, box);
      if p(x) {
        OneLineHolds(f(x), box);
        HoldsConcat(LinesWhere(init, p, f), [f(x)], box, Wanted(init, p, InBox(box, f)), multiset{(box, f(x))});
      } else {
        assert LinesWhere(init, p, f) + [] == LinesWhere(init, p, f);
      }
    }
  }

  lemma OneLineHolds(l: Line, box: Option<string>)
    requires IsContent(l)
    ensures Holds([l], box, multiset{(box, l)})
  {
    assert [l][1..] == [] && [l][..0] == [];
    assert Read([l], box) == [(box, l)];
  }

  lemma BoxDraws(inside: seq<Line>, c: string, m: multiset<Placed>)
    requires Holds(inside, Some(c), m)
    ensures Draws([OpenBox(c)] + inside + [CloseBox], [c], m)
  {
    var begun := [OpenBox(c)] + inside;
    assert [OpenBox(c)][1..] == [] && [OpenBox(c)][..0] == [] && [CloseBox][1..] == [] && [CloseBox][..0] == [];
    ReadConcat([OpenBox(c)], inside, None);
    ReadConcat(begun, [CloseBox], None);
    TitlesConcat([OpenBox(c)], inside);
    TitlesConcat(begun, [CloseBox]);
    assert Read([OpenBox(c)], None) == [] && BoxAfter([OpenBox(c)], None) == Some(c);
    assert Read([CloseBox], Some(c)) == [] && Titles([CloseBox]) == [] && Titles([OpenBox(c)]) == [c];
    assert Read(begun + [CloseBox], None) == Read(inside, Some(c));
  }

  lemma BoxContentDrawn(states: seq<State>, ts: seq<Transition>, c: string)
    ensures Draws(BoxLines(states, ts, c), [c], BoxContent(states, ts, c))
  {
    var kids, own, box := Select(states, ChildrenOf(c)), Select(ts, AtHome(states, Some(c))), Some(c);
    LinesHold(kids, Always, LabelOf, box);
    LinesHold(kids, Initial, StartOf, box);
    LinesHold(kids, Final, EndOf, box);
    LinesHold(own, Always, EdgeOf, box);
    KidsWanted(states, c, Always, ChildrenOf(c), LabelOf, LabelAt);
    KidsWanted(states, c, Initial, Both(ChildrenOf(c), Initial), StartOf, StartAt);
    KidsWanted(states, c, Final, Both(ChildrenOf(c), Final), EndOf, EndAt);
    EdgesWanted(states, ts, box);
    FourHold(LinesWhere(kids, Always, LabelOf), LinesWhere(kids, Initial, StartOf), LinesWhere(kids, Final, EndOf),
             LinesWhere(own, Always, EdgeOf), box,
             Wanted(states, ChildrenOf(c), LabelAt), Wanted(states, Both(ChildrenOf(c), Initial), StartAt),
             Wanted(states, Both(ChildrenOf(c), Final), EndAt), Wanted(ts, AtHome(states, box), EdgeAt(states)));
    BoxDraws(Inside(states, ts, c), c, BoxContent(states, ts, c));
  }

  lemma FourHold(a: seq<Line>, b: seq<Line>, c: seq<Line>, d: seq<Line>, box: Option<string>,
                 k: multiset<Placed>, l: multiset<Placed>, m: multiset<Placed>, n: multiset<Placed>)
    requires Holds(a, box, k) && Holds(b, box, l) && Holds(c, box, m) && Holds(d, box, n)
    ensures Holds(a + b + c + d, box, k + l + m + n)
  {
    HoldsConcat(a, b, box, k, l);
    HoldsConcat(a + b, c, box, k + l, m);
    HoldsConcat(a + b + c, d, box, k + l + m, n);
  }

  lemma {:induction false} BoxesDrawn(states: seq<State>, ts: seq<Transition>, cs: seq<string>)
    ensures Draws(BoxesLines(states, ts, cs), cs, BoxesContent(states, ts, cs))
  {
    if cs != [] {
      var init, c := cs[..|cs| - 1], cs[|cs| - 1];
      BoxesDrawn(states, ts, init);
      BoxContentDrawn(states, ts, c);
      DrawsConcat(BoxesLines(states, ts, init), BoxLines(states, ts, c), init, [c],
                  BoxesContent(states, ts, init), BoxContent(states, ts, c));
      assert init + [c] == cs;
    }
  }

  lemma DirectiveHolds(text: string)
    ensures Holds([Directive(text)], None, multiset{})
  {
    var l := Directive(text);
    assert [l][1..] == [] && [l][..0] == [];
    assert Read([l][1..], None) == [] && BoxAfter([l][1..], None) == None;
  }

  lemma HeaderHolds()
    ensures Holds(HEADER, None, multiset{})
  {
    var a, b, c := "stateDiagram-v2", "  direction LR", "";
    DirectiveHolds(a);
    DirectiveHolds(b);
    DirectiveHolds(c);
    HoldsConcat([Directive(a)], [Directive(b)], None, multiset{}, multiset{});
    HoldsConcat([Directive(a)] + [Directive(b)], [Directive(c)], None, multiset{}, multiset{});
    assert HEADER == [Directive(a)] + [Directive(b)] + [Directive(c)];
  }

  lemma TopDrawn(states: seq<State>)
    ensures Holds(TopLines(states), None,
                  Wanted(states, Both(IsTop, Labelled(states)), LabelAt) + Wanted(states, Both(IsTop, Initial), StartAt)
                  + Wanted(states, Both(IsTop, Final), EndAt))
  {
    LinesHold(states, Both(IsTop, Labelled(states)), LabelOf, None);
    LinesHold(states, Both(IsTop, Initial), StartOf, None);
    LinesHold(states, Both(IsTop, Final), EndOf, None);
    TopWanted(states, Both(IsTop, Labelled(states)), Labelled(states), LabelOf, LabelAt);
    TopWanted(states, Both(IsTop, Initial), Initial, StartOf, StartAt);
    TopWanted(states, Both(IsTop, Final), Final, EndOf, EndAt);
    HeaderHolds();
    FourHold(HEADER, LinesWhere(states, Both(IsTop, Labelled(states)), LabelOf),
             LinesWhere(states, Both(IsTop, Initial), StartOf), LinesWhere(states, Both(IsTop, Final), EndOf), None,
             multiset{}, Wanted(states, Both(IsTop, Labelled(states)), LabelAt),
             Wanted(states, Both(IsTop, Initial), StartAt), Wanted(states, Both(IsTop, Final), EndAt));
  }

  lemma TopRegroup<T>(a: multiset<T>, b: multiset<T>, c: multiset<T>, d: multiset<T>, boxes: multiset<T>)
    ensures a + b + c + boxes + d == a + b + c + d + boxes
  {
  }

  /** Read back, the lines hold exactly the expected content. */
  lemma DiagramContent(states: seq<State>, ts: seq<Transition>, cs: seq<string>)
    requires ListsComposites(states, cs)
    ensures Draws(DiagramLines(states, ts, cs), cs, Expected(states, ts))
  {
    var labels := Wanted(states, Both(IsTop, Labelled(states)), LabelAt);
    var starts := Wanted(states, Both(IsTop, Initial), StartAt);
    var ends, edges := Wanted(states, Both(IsTop, Final), EndAt), Wanted(ts, AtHome(states, None), EdgeAt(states));
    var boxes, last := BoxesContent(states, ts, cs), LinesWhere(Select(ts, AtHome(states, None)), Always, EdgeOf);
    TopDrawn(states);
    BoxesDrawn(states, ts, cs);
    LinesHold(Select(ts, AtHome(states, None)), Always, EdgeOf, None);
    EdgesWanted(states, ts, None);
    DrawsConcat(TopLines(states), BoxesLines(states, ts, cs), [], cs, labels + starts + ends, boxes);
    DrawsConcat(TopLines(states) + BoxesLines(states, ts, cs), last, [] + cs, [],
                labels + starts + ends + boxes, edges);
    TopRegroup(labels, starts, ends, edges, boxes);
    ContentComplete(states, ts, cs);
    assert [] + cs + [] == cs;
  }

  lemma {:induction false} NeverWanted<T(!new)>(s: seq<T>, p: T -> bool, f: T -> Placed, line: Placed)
    requires forall x :: x in s && p(x) ==> f(x) != line
    ensures Wanted(s, p, f)[line] == 0
  {
    if s != [] {
      assert s[|s| - 1] in s;
      NeverWanted(s[..|s| - 1], p, f, line);
    }
  }

  lemma {:induction false} EdgesWantedCount(states: seq<State>, ts: seq<Transition>, box: Option<string>, t: Transition)
    ensures Wanted(ts, Always, EdgeAt(states))[(box, Edge(t))] == if box == Home(states, t) then multiset(ts)[t] else 0
  {
    if ts != [] {
      EdgesWantedCount(states, ts[..|ts| - 1], box, t);
      assert ts == ts[..|ts| - 1] + [ts[|ts| - 1]];
    }
  }

  /** The edges of a diagram are a permutation of the transitions, and an edge stands in a composite's box
      exactly when both its ends are children of that composite. */
  lemma EdgesConserved(states: seq<State>, ts: seq<Transition>, box: Option<string>, t: Transition)
    ensures Expected(states, ts)[(box, Edge(t))] == if box == Home(states, t) then multiset(ts)[t] else 0
    ensures forall c :: Home(states, t) == Some(c)
                        <==> ParentOf(states, t.source) == Some(c) && ParentOf(states, t.target) == Some(c)
  {
    NeverWanted(states, Labelled(states), LabelAt, (box, Edge(t)));
    NeverWanted(states, Initial, StartAt, (box, Edge(t)));
    NeverWanted(states, Final, EndAt, (box, Edge(t)));
    EdgesWantedCount(states, ts, box, t);
  }

  lemma {:induction false} LabelWantedOnce(states: seq<State>, p: State -> bool, i: nat, box: Option<string>)
    requires UniqueIds(states) && i < |states|
    ensures Wanted(states, p, LabelAt)[(box, Label(states[i].id))]
         == if p(states[i]) && box == states[i].parent then 1 else 0
  {
    var n := |states| - 1;
    if i < n {
      LabelWantedOnce(states[..n], p, i, box);
    } else {
      forall x | x in states[..n] ensures LabelAt(x) != (box, Label(states[i].id)) {
        var j :| 0 <= j < n && states[j] == x;
      }
      NeverWanted(states[..n], p, LabelAt, (box, Label(states[i].id)));
    }
  }

  /** With unique ids every child is declared exactly once, in exactly its parent's box; a top-level state is
      declared outside all boxes, unless it is the title of its own. */
  lemma LabelsInTheirBox(states: seq<State>, ts: seq<Transition>, i: nat, box: Option<string>)
    requires UniqueIds(states) && i < |states|
    ensures Expected(states, ts)[(box, Label(states[i].id))]
         == if box == states[i].parent && (box.Some? || !IsComposite(states, states[i].id)) then 1 else 0
  {
    var line := (box, Label(states[i].id));
    LabelWantedOnce(states, Labelled(states), i, box);
    NeverWanted(states, Initial, StartAt, line);
    NeverWanted(states, Final, EndAt, line);
    NeverWanted(ts, Always, EdgeAt(states), line);
  }

  /** The states of one id in one box that satisfy `p`. */
  function Named(box: Option<string>, sid: string, p: State -> bool): State -> bool {
    (s: State) => s.parent == box && s.id == sid && p(s)
  }

  lemma {:induction false} WantedCount<T(!new)>(s: seq<T>, p: T -> bool, f: T -> Placed, q: T -> bool, line: Placed)
    requires forall x :: x in s ==> (q(x) <==> p(x) && f(x) == line)
    ensures Wanted(s, p, f)[line] == |Select(s, q)|
  {
    if s != [] {
      assert s[|s| - 1] in s;
      WantedCount(s[..|s| - 1], p, f, q, line);
    }
  }

  /** A start mark stands in a state's own box exactly once for each declaration of it as initial, an end mark for each
      as final, and none stands anywhere else. */
  lemma MarksInTheirBox(states: seq<State>, ts: seq<Transition>, box: Option<string>, sid: string)
    ensures Expected(states, ts)[(box, Start(sid))] == |Select(states, Named(box, sid, (s: State) => s.initial))|
    ensures Expected(states, ts)[(box, End(sid))] == |Select(states, Named(box, sid, (s: State) => s.final))|
  {
    StartsInTheirBox(states, ts, box, sid);
    EndsInTheirBox(states, ts, box, sid);
  }

  lemma StartsInTheirBox(states: seq<State>, ts: seq<Transition>, box: Option<string>, sid: string)
    ensures Expected(states, ts)[(box, Start(sid))] == |Select(states, Named(box, sid, (s: State) => s.initial))|
  {
    var line := (box, Start(sid));
    WantedCount(states, Initial, StartAt, Named(box, sid, (s: State) => s.initial), line);
    NeverWanted(states, Labelled(states), LabelAt, line);
    NeverWanted(states, Final, EndAt, line);
    NeverWanted(ts, Always, EdgeAt(states), line);
  }

  lemma EndsInTheirBox(states: seq<State>, ts: seq<Transition>, box: Option<string>, sid: string)
    ensures Expected(states, ts)[(box, End(sid))] == |Select(states, Named(box, sid, (s: State) => s.final))|
  {
    var line := (box, End(sid));
    WantedCount(states, Final, EndAt, Named(box, sid, (s: State) => s.final), line);
    NeverWanted(states, Labelled(states), LabelAt, line);
    NeverWanted(states, Initial, StartAt, line);
    NeverWanted(ts, Always, EdgeAt(states), line);
  }

  lemma ParsedParentsDeclared(hs: seq<Heading>)
    ensures ParentsDeclared(Declared(hs))
  {
    var states := Declared(hs);
    ParsedParentsFirst(hs);
    forall s | s in states && s.parent.Some? ensures exists p :: p in states && p.id == s.parent.value {
      var i :| 0 <= i < |states| && states[i] == s;
      assert DeclaredBefore(states, i, s.parent.value);
      var j :| 0 <= j < i && states[j].id == s.parent.value;
      assert states[j] in states;
    }
  }

  /** Building the diagram from text: no diagram without states, and otherwise one that fails no lookup. */
  method BuildMermaid(orcaMd: string) returns (diagram: Option<seq<Line>>)
    ensures var states, ts := Declared(Headings(SplitLines(orcaMd))), Rows(SplitLines(orcaMd));
            if states == [] then diagram == None
            else diagram.Some? && multiset(Read(diagram.value, None)) == Expected(states, ts)
                 && diagram.value == DiagramLines(states, ts, Titles(diagram.value))
                 && Sorted(Titles(diagram.value)) && ListsComposites(states, Titles(diagram.value))
  {
    var states, transitions := ParseMachine(orcaMd);
    if states == [] {
      return None;
    }
    ParsedParentsDeclared(Headings(SplitLines(orcaMd)));
    var out := BuildDiagram(states, transitions);
    diagram := Some(out);
  }
}
