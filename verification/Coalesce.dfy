/** Coalescing neighbours in one child list: the specification that the three in-place loops
    (tracked-change wrappers, runs, text elements) are proved against, and what it keeps.

    `Fuse` is a fold from the right. The loops work from the left or from the right and remove
    elements as they go; that all of them compute this fold is `FuseStep` and `FuseCons`. */
module Coalesce {
  import opened DocxTree
  import opened Options
  import opened Sequences
  import opened Strings

  // Which neighbours are merged: wrappers of one tag, runs, or `t` elements.
  datatype Rule = Wrappers(tag: Tag) | Runs | Texts {
    // Runs are merged across loose character data; the other two only across blanks.
    predicate Strict() {
      !Runs?
    }

    // Wrappers are merged when their authors read alike, which an absent and an empty one do.
    predicate Keeps(s: Sight) {
      Wrappers? ==> !s.Sharp?
    }
  }

  predicate IsChange(tag: Tag) {
    tag == Ins || tag == Del
  }

  // What ends the search for the next element to merge with.
  predicate Stops(rule: Rule, n: Node) {
    n.IsElement() || (rule.Strict() && n.Chars? && !IsBlank(n.data))
  }

  predicate Head(rule: Rule, n: Node) {
    match rule
    case Wrappers(tag) => n.Is(tag)
    case Runs => n.Is(R)
    case Texts => n.TextElem? && n.kind == T
  }

  predicate Joins(rule: Rule, a: Node, b: Node) {
    && Head(rule, a) && Head(rule, b)
    && match rule
       case Wrappers(_) => AuthorOrEmpty(a) == AuthorOrEmpty(b)
       case Runs => PropsOf(a.kids) == PropsOf(b.kids)
       case Texts => true
  }

  // What a run hands over: its child elements except the properties.
  function Moved(ns: seq<Node>): seq<Node> {
    if ns == [] then []
    else if ns[0].IsElement() && !ns[0].Is(RPr) then [ns[0]] + Moved(ns[1..])
    else Moved(ns[1..])
  }

  predicate SpaceEdged(s: string) {
    s != [] && (s[0] == ' ' || s[|s| - 1] == ' ')
  }

  function JoinTexts(a: Node, b: Node): Node
    requires a.TextElem? && b.TextElem?
  {
    var text := a.text + b.text;
    TextElem(a.kind, text, if SpaceEdged(text) then Some("preserve") else None)
  }

  function Join(rule: Rule, a: Node, b: Node): Node
    requires Head(rule, a) && Head(rule, b)
  {
    match rule
    case Wrappers(_) => a.(kids := a.kids + b.kids)
    case Runs => a.(kids := a.kids + Moved(b.kids))
    case Texts => JoinTexts(a, b)
  }

  // Puts x before a coalesced list, merging it with the next element when the two join.
  function Prepend(rule: Rule, x: Node, f: seq<Node>): (r: seq<Node>)
    ensures r != []
  {
    if f == [] then [x]
    else if Stops(rule, f[0]) then
      if Joins(rule, x, f[0]) then [Join(rule, x, f[0])] + f[1..] else [x] + f
    else
      var g := Prepend(rule, x, f[1..]);
      [g[0], f[0]] + g[1..]
  }

  function Fuse(rule: Rule, ns: seq<Node>): seq<Node> {
    if ns == [] then [] else Prepend(rule, ns[0], Fuse(rule, ns[1..]))
  }

  // Once its runs are merged, a container has the texts of each of them merged too.
  function MergeTexts(n: Node): Node {
    if n.Is(R) then n.(kids := Fuse(Texts, n.kids)) else n
  }

  function MergeTextsAll(ns: seq<Node>): seq<Node> {
    if ns == [] then [] else [MergeTexts(ns[0])] + MergeTextsAll(ns[1..])
  }

  function FuseRuns(ns: seq<Node>): seq<Node> {
    MergeTextsAll(Fuse(Runs, ns))
  }

  // ----- Merging keeps what decides later merges

  lemma {:induction false} PropsAppend(a: seq<Node>, b: seq<Node>)
    ensures PropsOf(a + b) == if PropsOf(a).Some? then PropsOf(a) else PropsOf(b)
  {
    if a == [] {
      assert a + b == b;
    } else {
      assert (a + b)[1..] == a[1..] + b;
      PropsAppend(a[1..], b);
    }
  }

  lemma {:induction false} PropsMoved(ns: seq<Node>)
    ensures PropsOf(Moved(ns)) == None
  {
    if ns != [] {
      PropsMoved(ns[1..]);
      if ns[0].IsElement() && !ns[0].Is(RPr) {
        assert Moved(ns)[1..] == Moved(ns[1..]);
      }
    }
  }

  lemma {:induction false} MovedAppend(a: seq<Node>, b: seq<Node>)
    ensures Moved(a + b) == Moved(a) + Moved(b)
  {
    if a == [] {
      assert a + b == b;
    } else {
      assert (a + b)[1..] == a[1..] + b;
      MovedAppend(a[1..], b);
    }
  }

  lemma {:induction false} MovedTwice(ns: seq<Node>)
    ensures Moved(Moved(ns)) == Moved(ns)
  {
    if ns != [] {
      MovedTwice(ns[1..]);
      if ns[0].IsElement() && !ns[0].Is(RPr) {
        assert Moved(ns)[1..] == Moved(ns[1..]);
      }
    }
  }

  lemma SameKey(rule: Rule, a: Node, b: Node, c: Node)
    requires Joins(rule, b, c)
    ensures Joins(rule, a, Join(rule, b, c)) == Joins(rule, a, b)
    ensures Joins(rule, Join(rule, b, c), a) == Joins(rule, b, a)
  {
    if rule == Runs {
      PropsAppend(b.kids, Moved(c.kids));
      PropsMoved(c.kids);
    }
  }

  // A merged element is the first of the two: its identity, its attributes.
  lemma JoinKeepsFirst(rule: Rule, a: Node, b: Node)
    requires Joins(rule, a, b)
    ensures a.Elem? ==> Join(rule, a, b) == a.(kids := Join(rule, a, b).kids)
    ensures a.TextElem? ==> Join(rule, a, b).TextElem? && Join(rule, a, b).kind == a.kind
  {
  }

  lemma JoinAssociative(rule: Rule, a: Node, b: Node, c: Node)
    requires Joins(rule, a, b) && Joins(rule, b, c)
    ensures Joins(rule, Join(rule, a, b), c) && Joins(rule, a, Join(rule, b, c))
    ensures Join(rule, Join(rule, a, b), c) == Join(rule, a, Join(rule, b, c))
  {
    SameKey(rule, c, a, b);
    SameKey(rule, a, b, c);
    match rule
    case Wrappers(_) => Regrouped(a.kids, b.kids, c.kids);
    case Runs => MovedJoins(a.kids, b.kids, c.kids);
    case Texts => Regrouped(a.text, b.text, c.text);
  }

  lemma MovedJoins(a: seq<Node>, b: seq<Node>, c: seq<Node>)
    ensures a + Moved(b) + Moved(c) == a + Moved(b + Moved(c))
  {
    MovedAppend(b, Moved(c));
    MovedTwice(c);
    Regrouped(a, Moved(b), Moved(c));
  }

  lemma {:induction false} PrependKey(rule: Rule, a: Node, x: Node, f: seq<Node>)
    ensures Joins(rule, a, Prepend(rule, x, f)[0]) == Joins(rule, a, x)
    ensures Joins(rule, Prepend(rule, x, f)[0], a) == Joins(rule, x, a)
    ensures Stops(rule, Prepend(rule, x, f)[0]) == Stops(rule, x)
  {
    if f != [] {
      if Stops(rule, f[0]) {
        if Joins(rule, x, f[0]) {
          SameKey(rule, a, x, f[0]);
        }
      } else {
        PrependKey(rule, a, x, f[1..]);
      }
    }
  }

  // ----- The loops' steps

  lemma {:induction false} PrependOther(rule: Rule, x: Node, f: seq<Node>)
    requires !Head(rule, x)
    ensures Prepend(rule, x, f) == [x] + f
  {
    if f != [] && !Stops(rule, f[0]) {
      PrependOther(rule, x, f[1..]);
      TailOfCons(x, f[1..]);
      ConsBefore(x, f);
    }
  }

  // Two merges in a row come to the same in either order.
  lemma {:induction false} PrependTwice(rule: Rule, a: Node, b: Node, f: seq<Node>)
    requires Joins(rule, a, b)
    ensures Prepend(rule, a, Prepend(rule, b, f)) == Prepend(rule, Join(rule, a, b), f)
  {
    if f != [] {
      if Stops(rule, f[0]) {
        PrependTwiceHere(rule, a, b, f);
      } else {
        PrependTwice(rule, a, b, f[1..]);
        PrependKey(rule, a, b, f[1..]);
        PrependAroundOther(rule, a, f[0], Prepend(rule, b, f[1..]));
      }
    }
  }

  lemma PrependTwiceHere(rule: Rule, a: Node, b: Node, f: seq<Node>)
    requires Joins(rule, a, b) && f != [] && Stops(rule, f[0])
    ensures Prepend(rule, a, Prepend(rule, b, f)) == Prepend(rule, Join(rule, a, b), f)
  {
    SameKey(rule, f[0], a, b);
    if Joins(rule, b, f[0]) {
      JoinAssociative(rule, a, b, f[0]);
      TailOfCons(Join(rule, b, f[0]), f[1..]);
    } else {
      TailOfCons(b, f);
    }
  }

  // What stands behind the element that a is merged with does not matter.
  lemma PrependAroundOther(rule: Rule, a: Node, y: Node, g: seq<Node>)
    requires g != [] && Joins(rule, a, g[0])
    ensures var k := Prepend(rule, a, g);
            Prepend(rule, a, [g[0], y] + g[1..]) == [k[0], y] + k[1..]
  {
    var j, rest := Join(rule, a, g[0]), g[1..];
    TailOfSwap(g[0], y, rest);
    TailOfCons(j, rest);
    TailOfSwap(j, y, rest);
  }

  predicate Gap(rule: Rule, ns: seq<Node>) {
    forall k | 0 <= k < |ns| :: !Stops(rule, ns[k])
  }

  lemma {:induction false} PrependAcross(rule: Rule, x: Node, mid: seq<Node>, f: seq<Node>)
    requires Gap(rule, mid)
    ensures var g := Prepend(rule, x, f);
            Prepend(rule, x, mid + f) == [g[0]] + mid + g[1..]
  {
    if mid == [] {
      NothingBetween(Prepend(rule, x, f), f);
    } else {
      GapTail(rule, mid);
      PrependAcross(rule, x, mid[1..], f);
      PrependAcrossOne(rule, x, mid, f, Prepend(rule, x, f));
    }
  }

  lemma GapTail(rule: Rule, mid: seq<Node>)
    requires mid != [] && Gap(rule, mid)
    ensures Gap(rule, mid[1..]) && !Stops(rule, mid[0])
  {
  }

  lemma PrependAcrossOne(rule: Rule, x: Node, mid: seq<Node>, f: seq<Node>, g: seq<Node>)
    requires mid != [] && !Stops(rule, mid[0]) && g != []
    requires Prepend(rule, x, mid[1..] + f) == [g[0]] + mid[1..] + g[1..]
    ensures Prepend(rule, x, mid + f) == [g[0]] + mid + g[1..]
  {
    TailOfSum(mid, f);
    PrependPast(rule, x, mid[0], mid[1..] + f);
    OneMoreAcross(g[0], mid, g[1..], Prepend(rule, x, mid[1..] + f));
  }

  lemma PrependPast(rule: Rule, x: Node, y: Node, f: seq<Node>)
    requires !Stops(rule, y)
    ensures var h := Prepend(rule, x, f);
            Prepend(rule, x, [y] + f) == [h[0], y] + h[1..]
  {
    TailOfCons(y, f);
  }

  lemma OneMoreAcross(x: Node, mid: seq<Node>, tail: seq<Node>, h: seq<Node>)
    requires mid != [] && h == [x] + mid[1..] + tail
    ensures [h[0], mid[0]] + h[1..] == [x] + mid + tail
  {
    assert h[1..] == mid[1..] + tail;
    TailOfSum(mid, tail);
  }

  lemma {:induction false} FusePastOthers(rule: Rule, pre: seq<Node>, ns: seq<Node>)
    requires forall k | 0 <= k < |pre| :: !Head(rule, pre[k])
    ensures Fuse(rule, pre + ns) == pre + Fuse(rule, ns)
  {
    if pre == [] {
      assert pre + ns == ns;
    } else {
      var f := Fuse(rule, ns);
      TailOfSum(pre, ns);
      FusePastOthers(rule, pre[1..], ns);
      PrependOther(rule, pre[0], pre[1..] + f);
      TailOfSum(pre, f);
    }
  }

  lemma FuseCons(rule: Rule, x: Node, mid: seq<Node>, ns: seq<Node>)
    requires forall k | 0 <= k < |mid| :: !Head(rule, mid[k])
    ensures Fuse(rule, [x] + mid + ns) == Prepend(rule, x, mid + Fuse(rule, ns))
  {
    assert ([x] + mid + ns)[1..] == mid + ns;
    FusePastOthers(rule, mid, ns);
  }

  // Merging two neighbours first does not change what coalescing the list gives.
  lemma FuseStep(rule: Rule, a: Node, mid: seq<Node>, b: Node, rest: seq<Node>)
    requires Joins(rule, a, b) && Gap(rule, mid)
    ensures Fuse(rule, [a] + mid + ([b] + rest)) == Fuse(rule, [Join(rule, a, b)] + mid + rest)
  {
    var f := Fuse(rule, rest);
    FuseCons(rule, a, mid, [b] + rest);
    FuseCons(rule, Join(rule, a, b), mid, rest);
    assert ([b] + rest)[1..] == rest;
    PrependAcross(rule, a, mid, Prepend(rule, b, f));
    PrependAcross(rule, Join(rule, a, b), mid, f);
    PrependTwice(rule, a, b, f);
  }

  // ----- Normal form

  // x cannot be merged with the first element of f.
  predicate Lonely(rule: Rule, x: Node, f: seq<Node>) {
    f == [] || (if Stops(rule, f[0]) then !Joins(rule, x, f[0]) else Lonely(rule, x, f[1..]))
  }

  predicate Settled(rule: Rule, ns: seq<Node>) {
    ns == [] || (Lonely(rule, ns[0], ns[1..]) && Settled(rule, ns[1..]))
  }

  // Any two elements that could be merged are kept apart by something between them.
  ghost predicate Apart(rule: Rule, ns: seq<Node>) {
    forall i, j | 0 <= i < j < |ns| && Joins(rule, ns[i], ns[j]) :: Blocked(rule, ns, i, j)
  }

  ghost predicate Blocked(rule: Rule, ns: seq<Node>, i: int, j: int)
    requires -1 <= i < j < |ns|
  {
    exists k | i < k < j :: Stops(rule, ns[k])
  }

  lemma {:induction false} SettledMeans(rule: Rule, ns: seq<Node>)
    ensures Settled(rule, ns) <==> Apart(rule, ns)
  {
    if ns != [] {
      SettledMeans(rule, ns[1..]);
      LonelyMeans(rule, ns[0], ns[1..]);
      ApartTail(rule, ns);
    }
  }

  // The same for each kind of element, in terms of the list alone.

  // Between two runs with the same properties there is another element.
  ghost predicate RunsApart(ns: seq<Node>) {
    forall i, j | 0 <= i < j < |ns| && ns[i].Is(R) && ns[j].Is(R) && PropsOf(ns[i].kids) == PropsOf(ns[j].kids) ::
      exists k | i < k < j :: ns[k].IsElement()
  }

  // Between two wrappers of one tag and author there is another element or loose text.
  ghost predicate WrappersApart(tag: Tag, ns: seq<Node>) {
    forall i, j | 0 <= i < j < |ns| && SameChange(tag, ns[i], ns[j]) :: Separated(ns, i, j)
  }

  predicate SameChange(tag: Tag, a: Node, b: Node) {
    a.Is(tag) && b.Is(tag) && AuthorOrEmpty(a) == AuthorOrEmpty(b)
  }

  ghost predicate TextsApart(ns: seq<Node>) {
    forall i, j | 0 <= i < j < |ns| && IsText(ns[i]) && IsText(ns[j]) :: Separated(ns, i, j)
  }

  ghost predicate Separated(ns: seq<Node>, i: int, j: int)
    requires 0 <= i < j < |ns|
  {
    exists k | i < k < j :: Separates(ns[k])
  }

  predicate IsText(n: Node) {
    n.TextElem? && n.kind == T
  }

  predicate Separates(n: Node) {
    n.TextElem? || n.Elem? || (n.Chars? && exists c | c in n.data :: !IsSpace(c))
  }

  lemma RunsSettled(ns: seq<Node>)
    ensures Settled(Runs, ns) <==> RunsApart(ns)
  {
    SettledMeans(Runs, ns);
    forall i, j | 0 <= i < j < |ns|
      ensures Blocked(Runs, ns, i, j) <==> exists k | i < k < j :: ns[k].IsElement()
    {
      assert forall k | i < k < j :: Stops(Runs, ns[k]) <==> ns[k].IsElement();
    }
    assert forall i, j | 0 <= i < j < |ns| ::
        Joins(Runs, ns[i], ns[j]) <==> ns[i].Is(R) && ns[j].Is(R) && PropsOf(ns[i].kids) == PropsOf(ns[j].kids);
  }

  lemma StrictlyBlocked(rule: Rule, ns: seq<Node>, i: int, j: int)
    requires rule.Strict() && 0 <= i < j < |ns|
    ensures Blocked(rule, ns, i, j) <==> Separated(ns, i, j)
  {
    assert forall k | i < k < j :: Stops(rule, ns[k]) <==> Separates(ns[k]);
  }

  lemma WrappersSettled(tag: Tag, ns: seq<Node>)
    ensures Settled(Wrappers(tag), ns) <==> WrappersApart(tag, ns)
  {
    SettledMeans(Wrappers(tag), ns);
    forall i, j | 0 <= i < j < |ns|
      ensures Joins(Wrappers(tag), ns[i], ns[j]) <==> SameChange(tag, ns[i], ns[j])
      ensures Blocked(Wrappers(tag), ns, i, j) <==> Separated(ns, i, j)
    {
      JoinsSameChange(tag, ns[i], ns[j]);
      StrictlyBlocked(Wrappers(tag), ns, i, j);
    }
  }

  lemma JoinsSameChange(tag: Tag, a: Node, b: Node)
    ensures Joins(Wrappers(tag), a, b) <==> SameChange(tag, a, b)
  {
  }

  lemma TextsSettled(ns: seq<Node>)
    ensures Settled(Texts, ns) <==> TextsApart(ns)
  {
    SettledMeans(Texts, ns);
    forall i, j | 0 <= i < j < |ns|
      ensures Blocked(Texts, ns, i, j) <==> Separated(ns, i, j)
    {
      StrictlyBlocked(Texts, ns, i, j);
    }
    assert forall i, j | 0 <= i < j < |ns| :: Joins(Texts, ns[i], ns[j]) <==> IsText(ns[i]) && IsText(ns[j]);
  }

  lemma BlockedTail(rule: Rule, ns: seq<Node>, i: int, j: int)
    requires 0 <= i < j < |ns|
    ensures Blocked(rule, ns, i, j) <==> Blocked(rule, ns[1..], i - 1, j - 1)
  {
    if Blocked(rule, ns, i, j) {
      var k :| i < k < j && Stops(rule, ns[k]);
      assert Stops(rule, ns[1..][k - 1]);
    }
    if Blocked(rule, ns[1..], i - 1, j - 1) {
      var k :| i - 1 < k < j - 1 && Stops(rule, ns[1..][k]);
      assert Stops(rule, ns[k + 1]);
    }
  }

  lemma ApartTail(rule: Rule, ns: seq<Node>)
    requires ns != []
    ensures Apart(rule, ns) <==>
            Apart(rule, ns[1..]) &&
            forall j | 0 <= j < |ns[1..]| && Joins(rule, ns[0], ns[1..][j]) :: Blocked(rule, ns[1..], -1, j)
  {
    forall i, j | 0 <= i < j < |ns|
      ensures Blocked(rule, ns, i, j) <==> Blocked(rule, ns[1..], i - 1, j - 1)
    {
      BlockedTail(rule, ns, i, j);
    }
    var t := ns[1..];
    assert forall j | 0 <= j < |t| :: t[j] == ns[j + 1];
    if Apart(rule, ns) {
      forall i, j | 0 <= i < j < |t| && Joins(rule, t[i], t[j])
        ensures Blocked(rule, t, i, j)
      {
        assert Joins(rule, ns[i + 1], ns[j + 1]);
        BlockedTail(rule, ns, i + 1, j + 1);
      }
      forall j | 0 <= j < |t| && Joins(rule, ns[0], t[j])
        ensures Blocked(rule, t, -1, j)
      {
        assert Joins(rule, ns[0], ns[j + 1]);
        BlockedTail(rule, ns, 0, j + 1);
      }
    }
  }

  lemma {:induction false} LonelyMeans(rule: Rule, x: Node, f: seq<Node>)
    ensures Lonely(rule, x, f) <==>
            forall j | 0 <= j < |f| && Joins(rule, x, f[j]) :: Blocked(rule, f, -1, j)
  {
    if f != [] {
      var t := f[1..];
      LonelyMeans(rule, x, t);
      if !Stops(rule, f[0]) {
        if Lonely(rule, x, f) {
          forall j | 0 <= j < |f| && Joins(rule, x, f[j])
            ensures Blocked(rule, f, -1, j)
          {
            assert f[j] == t[j - 1];
            var k :| 0 <= k < j - 1 && Stops(rule, t[k]);
            assert Stops(rule, f[k + 1]);
          }
        } else {
          var j :| 0 <= j < |t| && Joins(rule, x, t[j]) && !Blocked(rule, t, -1, j);
          assert Joins(rule, x, f[j + 1]);
          BlockedTail(rule, f, 0, j + 1);
        }
      }
    }
  }

  lemma {:induction false} LonelyPrepends(rule: Rule, x: Node, f: seq<Node>)
    requires Lonely(rule, x, f)
    ensures Prepend(rule, x, f) == [x] + f
  {
    if f != [] && !Stops(rule, f[0]) {
      LonelyPrepends(rule, x, f[1..]);
      TailOfCons(x, f[1..]);
      ConsBefore(x, f);
    }
  }

  lemma {:induction false} SettledIsFixed(rule: Rule, ns: seq<Node>)
    requires Settled(rule, ns)
    ensures Fuse(rule, ns) == ns
  {
    if ns != [] {
      SettledIsFixed(rule, ns[1..]);
      LonelyPrepends(rule, ns[0], ns[1..]);
    }
  }

  lemma {:induction false} PrependSettled(rule: Rule, x: Node, f: seq<Node>)
    requires Settled(rule, f)
    ensures Settled(rule, Prepend(rule, x, f))
  {
    if f != [] {
      if Stops(rule, f[0]) {
        if Joins(rule, x, f[0]) {
          LonelyJoined(rule, x, f[0], f[1..]);
          assert Prepend(rule, x, f)[1..] == f[1..];
        } else {
          assert ([x] + f)[1..] == f;
        }
      } else {
        PrependSettled(rule, x, f[1..]);
        var g := Prepend(rule, x, f[1..]);
        var r := [g[0], f[0]] + g[1..];
        assert r[1..] == [f[0]] + g[1..] && r[1..][1..] == g[1..];
        OtherIsLonely(rule, f[0], g[1..]);
      }
    } else {
      assert [x][1..] == [];
    }
  }

  lemma {:induction false} OtherIsLonely(rule: Rule, x: Node, f: seq<Node>)
    requires !Head(rule, x)
    ensures Lonely(rule, x, f)
  {
    if f != [] {
      OtherIsLonely(rule, x, f[1..]);
    }
  }

  lemma {:induction false} LonelyJoined(rule: Rule, x: Node, y: Node, f: seq<Node>)
    requires Joins(rule, x, y) && Lonely(rule, y, f)
    ensures Lonely(rule, Join(rule, x, y), f)
  {
    if f != [] {
      if Stops(rule, f[0]) {
        SameKey(rule, f[0], x, y);
      } else {
        LonelyJoined(rule, x, y, f[1..]);
      }
    }
  }

  // Coalescing reaches the normal form, whatever the list.
  lemma {:induction false} FuseSettles(rule: Rule, ns: seq<Node>)
    ensures Settled(rule, Fuse(rule, ns))
  {
    if ns != [] {
      FuseSettles(rule, ns[1..]);
      PrependSettled(rule, ns[0], Fuse(rule, ns[1..]));
    }
  }

  // Fusing wrappers of one tag cannot make wrappers of the other tag mergeable.
  lemma {:induction false} OthersStaySettled(tag: Tag, other: Tag, ns: seq<Node>)
    requires tag != other && Settled(Wrappers(other), ns)
    ensures Settled(Wrappers(other), Fuse(Wrappers(tag), ns))
    ensures forall x :: Lonely(Wrappers(other), x, ns) ==> Lonely(Wrappers(other), x, Fuse(Wrappers(tag), ns))
  {
    if ns != [] {
      OthersStaySettled(tag, other, ns[1..]);
      PrependOthersSettled(tag, other, ns[0], Fuse(Wrappers(tag), ns[1..]));
      var f := Fuse(Wrappers(tag), ns[1..]);
      assert ([ns[0]] + f)[1..] == f;
    }
  }

  lemma {:induction false} PrependOthersSettled(tag: Tag, other: Tag, x: Node, f: seq<Node>)
    requires tag != other && Settled(Wrappers(other), f) && Lonely(Wrappers(other), x, f)
    ensures Settled(Wrappers(other), Prepend(Wrappers(tag), x, f))
    ensures forall y :: Lonely(Wrappers(other), y, [x] + f) ==> Lonely(Wrappers(other), y, Prepend(Wrappers(tag), x, f))
  {
    assert ([x] + f)[1..] == f;
    if f != [] {
      var r := Prepend(Wrappers(tag), x, f);
      if Stops(Wrappers(tag), f[0]) {
        assert r[1..] == if Joins(Wrappers(tag), x, f[0]) then f[1..] else f;
        if Joins(Wrappers(tag), x, f[0]) {
          OtherIsLonely(Wrappers(other), r[0], f[1..]);
        }
      } else {
        PrependOthersSettled(tag, other, x, f[1..]);
        var g := Prepend(Wrappers(tag), x, f[1..]);
        assert r[1..] == [f[0]] + g[1..] && r[1..][1..] == g[1..];
        assert ([x] + f[1..])[1..] == f[1..];
        OtherIsLonely(Wrappers(other), f[0], g[1..]);
        PrependKey(Wrappers(tag), x, x, f[1..]);
        if !Stops(Wrappers(tag), x) {
          PrependOther(Wrappers(tag), x, f[1..]);
        }
        forall y | Lonely(Wrappers(other), y, [x] + f)
          ensures Lonely(Wrappers(other), y, r)
        {
          assert ([x] + f)[0] == x == ([x] + f[1..])[0];
          if !Stops(Wrappers(other), x) {
            assert Lonely(Wrappers(other), y, f);
            assert Lonely(Wrappers(other), y, f[1..]);
          }
          assert Lonely(Wrappers(other), y, [x] + f[1..]);
          assert Lonely(Wrappers(other), y, g);
        }
      }
    }
  }

  lemma FuseBothSettles(ns: seq<Node>)
    ensures var f := Fuse(Wrappers(Del), Fuse(Wrappers(Ins), ns));
            Settled(Wrappers(Ins), f) && Settled(Wrappers(Del), f)
  {
    FuseSettles(Wrappers(Ins), ns);
    FuseSettles(Wrappers(Del), Fuse(Wrappers(Ins), ns));
    OthersStaySettled(Del, Ins, Fuse(Wrappers(Ins), ns));
  }

  // Merging the texts of the runs leaves the runs as settled as they were.
  lemma {:induction false} FuseRunsSettles(ns: seq<Node>)
    ensures Settled(Runs, FuseRuns(ns))
    ensures forall n | n in FuseRuns(ns) && n.Is(R) :: Settled(Texts, n.kids)
  {
    FuseSettles(Runs, ns);
    MergeTextsSettles(Fuse(Runs, ns));
  }

  lemma {:induction false} MergeTextsSettles(ns: seq<Node>)
    ensures Settled(Runs, ns) ==> Settled(Runs, MergeTextsAll(ns))
    ensures forall x :: Lonely(Runs, x, ns) ==> Lonely(Runs, MergeTexts(x), MergeTextsAll(ns))
    ensures forall n | n in MergeTextsAll(ns) && n.Is(R) :: Settled(Texts, n.kids)
  {
    if ns != [] {
      MergeTextsSettles(ns[1..]);
      if ns[0].Is(R) {
        FuseSettles(Texts, ns[0].kids);
      }
      forall x
        ensures Joins(Runs, MergeTexts(x), MergeTexts(ns[0])) == Joins(Runs, x, ns[0])
      {
        if x.Is(R) {
          PropsFused(x.kids);
        }
        if ns[0].Is(R) {
          PropsFused(ns[0].kids);
        }
      }
    }
  }

  // What is merged is exactly what may be: a list stays as it is if and only if nothing in it
  // could be merged, and of what is merged nothing more could be.
  lemma MergesExactly(ns: seq<Node>)
    ensures RunsApart(FuseRuns(ns)) && forall n | n in FuseRuns(ns) && n.Is(R) :: TextsApart(n.kids)
    ensures FuseRuns(ns) == ns <==> RunsApart(ns) && forall n | n in ns && n.Is(R) :: TextsApart(n.kids)
  {
    FuseRunsSettles(ns);
    RunsSettled(FuseRuns(ns));
    RunsSettled(ns);
    forall n: Node | n.Is(R)
      ensures Settled(Texts, n.kids) <==> TextsApart(n.kids)
    {
      TextsSettled(n.kids);
    }
    if RunsApart(ns) && forall n | n in ns && n.Is(R) :: TextsApart(n.kids) {
      FuseRunsFixed(ns);
    }
  }

  lemma WrappersMergeExactly(ns: seq<Node>)
    ensures var f := Fuse(Wrappers(Del), Fuse(Wrappers(Ins), ns));
            && WrappersApart(Ins, f) && WrappersApart(Del, f)
            && (f == ns <==> WrappersApart(Ins, ns) && WrappersApart(Del, ns))
  {
    var f := Fuse(Wrappers(Del), Fuse(Wrappers(Ins), ns));
    FuseBothSettles(ns);
    WrappersSettled(Ins, f);
    WrappersSettled(Del, f);
    WrappersSettled(Ins, ns);
    WrappersSettled(Del, ns);
    if WrappersApart(Ins, ns) && WrappersApart(Del, ns) {
      SettledIsFixed(Wrappers(Ins), ns);
      SettledIsFixed(Wrappers(Del), ns);
    }
  }

  lemma {:induction false} PropsFused(ns: seq<Node>)
    ensures PropsOf(Fuse(Texts, ns)) == PropsOf(ns)
  {
    if ns != [] {
      PropsFused(ns[1..]);
      PropsPrepended(ns[0], Fuse(Texts, ns[1..]));
    }
  }

  lemma {:induction false} PropsPrepended(x: Node, f: seq<Node>)
    ensures PropsOf(Prepend(Texts, x, f)) == PropsOf([x] + f)
  {
    assert ([x] + f)[1..] == f;
    if f == [] {
      assert [x][1..] == [];
    } else if Stops(Texts, f[0]) {
      assert Joins(Texts, x, f[0]) ==> Prepend(Texts, x, f)[1..] == f[1..];
    } else {
      PropsPrepended(x, f[1..]);
      var g := Prepend(Texts, x, f[1..]);
      var r := [g[0], f[0]] + g[1..];
      assert r[1..] == [f[0]] + g[1..] && r[1..][1..] == g[1..];
      assert ([x] + f[1..])[1..] == f[1..];
    }
  }

  lemma {:induction false} FuseRunsFixed(ns: seq<Node>)
    requires Settled(Runs, ns) && forall n | n in ns && n.Is(R) :: Settled(Texts, n.kids)
    ensures FuseRuns(ns) == ns
  {
    SettledIsFixed(Runs, ns);
    MergeTextsFixed(ns);
  }

  lemma {:induction false} MergeTextsFixed(ns: seq<Node>)
    requires forall n | n in ns && n.Is(R) :: Settled(Texts, n.kids)
    ensures MergeTextsAll(ns) == ns
  {
    if ns != [] {
      if ns[0].Is(R) {
        SettledIsFixed(Texts, ns[0].kids);
      }
      MergeTextsFixed(ns[1..]);
    }
  }

  lemma {:induction false} FuseRunsOfNone(ns: seq<Node>)
    requires forall k | 0 <= k < |ns| :: !ns[k].Is(R)
    ensures FuseRuns(ns) == ns
  {
    FusePastOthers(Runs, ns, []);
    assert ns + [] == ns;
    MergeTextsFixed(ns);
  }

  // ----- What the nodes of a coalesced list have in common with those of the list

  lemma {:induction false} PrependKeeps(rule: Rule, p: Node -> bool, x: Node, f: seq<Node>)
    requires p(x) && forall n | n in f :: p(n)
    requires forall a, b {:trigger Join(rule, a, b)} :: Joins(rule, a, b) && p(a) && p(b) ==> p(Join(rule, a, b))
    ensures forall n | n in Prepend(rule, x, f) :: p(n)
  {
    if f != [] {
      assert p(f[0]);
      if !Stops(rule, f[0]) {
        PrependKeeps(rule, p, x, f[1..]);
      }
    }
  }

  lemma {:induction false} FuseKeeps(rule: Rule, p: Node -> bool, ns: seq<Node>)
    requires forall n | n in ns :: p(n)
    requires forall a, b {:trigger Join(rule, a, b)} :: Joins(rule, a, b) && p(a) && p(b) ==> p(Join(rule, a, b))
    ensures forall n | n in Fuse(rule, ns) :: p(n)
  {
    if ns != [] {
      FuseKeeps(rule, p, ns[1..]);
      assert p(ns[0]);
      PrependKeeps(rule, p, ns[0], Fuse(rule, ns[1..]));
    }
  }

  // Of elements that are merged the first one stays, and takes in the others: what a list with
  // others in front begins with keeps its identity and its attributes.
  lemma FirstStays(rule: Rule, pre: seq<Node>, x: Node, rest: seq<Node>)
    requires x.Elem? && forall k | 0 <= k < |pre| :: !Head(rule, pre[k])
    ensures |Fuse(rule, pre + ([x] + rest))| > |pre| && Fuse(rule, pre + ([x] + rest))[..|pre|] == pre
    ensures var y := Fuse(rule, pre + ([x] + rest))[|pre|]; y.Elem? && y == x.(kids := y.kids)
  {
    FusePastOthers(rule, pre, [x] + rest);
    assert ([x] + rest)[1..] == rest;
    PrependFirst(rule, x, Fuse(rule, rest));
  }

  lemma {:induction false} PrependFirst(rule: Rule, x: Node, f: seq<Node>)
    requires x.Elem?
    ensures var y := Prepend(rule, x, f)[0]; y.Elem? && y == x.(kids := y.kids)
  {
    if f != [] {
      if Joins(rule, x, f[0]) {
        JoinKeepsFirst(rule, x, f[0]);
      }
      if !Stops(rule, f[0]) {
        PrependFirst(rule, x, f[1..]);
      }
    }
  }

  // ----- Nothing a reader can tell is lost

  lemma {:induction false} MovedView(ns: seq<Node>, marks: seq<Mark>)
    requires CleanAll(ns)
    ensures ViewAll(Moved(ns), marks) == ViewAll(ns, marks)
  {
    if ns != [] {
      assert Clean(ns[0]);
      MovedView(ns[1..], marks);
      if ns[0].IsElement() && !ns[0].Is(RPr) {
        assert Moved(ns)[1..] == Moved(ns[1..]);
      } else {
        if ns[0].Is(RPr) {
          BareAllUnseen(ns[0].kids, MarksBelow(ns[0], marks));
        }
        assert ViewOf(ns[0], marks) == BLANK;
      }
    }
  }

  lemma JoinView(s: Sight, rule: Rule, a: Node, b: Node, marks: seq<Mark>)
    requires Joins(rule, a, b) && rule.Keeps(s)
    requires rule.Wrappers? ==> IsChange(rule.tag)
    requires rule == Runs ==> Clean(b)
    ensures Alike(s, ViewOf(Join(rule, a, b), marks), ViewOf(a, marks).Then(ViewOf(b, marks)))
  {
    match rule
    case Wrappers(tag) => JoinWrappersView(s, tag, a, b, marks);
    case Runs => JoinRunsView(a, b, marks);
    case Texts =>
  }

  lemma JoinWrappersView(s: Sight, tag: Tag, a: Node, b: Node, marks: seq<Mark>)
    requires IsChange(tag) && Joins(Wrappers(tag), a, b) && !s.Sharp?
    ensures Alike(s, ViewOf(Join(Wrappers(tag), a, b), marks), ViewOf(a, marks).Then(ViewOf(b, marks)))
  {
    var ab, below, below' := Join(Wrappers(tag), a, b), MarksBelow(a, marks), MarksBelow(b, marks);
    ViewAppend(a.kids, b.kids, below);
    BlurBelow(s, a, marks, b, marks);
    BlurViewAll(s, b.kids, below, below');
    AlikeThen(s, ViewAll(a.kids, below), ViewAll(a.kids, below), ViewAll(b.kids, below), ViewAll(b.kids, below'));
    FrameUnseen(ab, marks, ViewAll(ab.kids, below));
    FrameUnseen(a, marks, ViewAll(a.kids, below));
    FrameUnseen(b, marks, ViewAll(b.kids, below'));
  }

  lemma JoinRunsView(a: Node, b: Node, marks: seq<Mark>)
    requires Joins(Runs, a, b) && Clean(b)
    ensures ViewOf(Join(Runs, a, b), marks) == ViewOf(a, marks).Then(ViewOf(b, marks))
  {
    var ab, below := Join(Runs, a, b), MarksBelow(a, marks);
    PropsAppend(a.kids, Moved(b.kids));
    PropsMoved(b.kids);
    ViewAppend(a.kids, Moved(b.kids), below);
    MovedView(b.kids, below);
    FrameUnseen(ab, marks, ViewAll(ab.kids, below));
    FrameUnseen(a, marks, ViewAll(a.kids, below));
    FrameUnseen(b, marks, ViewAll(b.kids, below));
  }

  lemma {:induction false} PrependView(s: Sight, rule: Rule, x: Node, f: seq<Node>, marks: seq<Mark>)
    requires rule.Keeps(s)
    requires rule.Wrappers? ==> IsChange(rule.tag)
    requires rule == Runs ==> CleanAll(f)
    ensures Alike(s, ViewAll(Prepend(rule, x, f), marks), ViewOf(x, marks).Then(ViewAll(f, marks)))
  {
    if f == [] {
      ViewOne(x, marks);
    } else {
      assert rule == Runs ==> Clean(f[0]);
      if Stops(rule, f[0]) {
        PrependHereView(s, rule, x, f, marks);
      } else {
        PrependView(s, rule, x, f[1..], marks);
        SwapView(Prepend(rule, x, f[1..]), f[0], marks);
        BlankThen(ViewAll(f[1..], marks));
      }
    }
  }

  lemma PrependHereView(s: Sight, rule: Rule, x: Node, f: seq<Node>, marks: seq<Mark>)
    requires rule.Keeps(s)
    requires rule.Wrappers? ==> IsChange(rule.tag)
    requires f != [] && Stops(rule, f[0]) && (rule == Runs ==> Clean(f[0]))
    ensures Alike(s, ViewAll(Prepend(rule, x, f), marks), ViewOf(x, marks).Then(ViewAll(f, marks)))
  {
    var u, v, rest := ViewOf(x, marks), ViewOf(f[0], marks), ViewAll(f[1..], marks);
    if Joins(rule, x, f[0]) {
      assert Prepend(rule, x, f)[1..] == f[1..];
      JoinView(s, rule, x, f[0], marks);
      AlikeThen(s, ViewOf(Join(rule, x, f[0]), marks), u.Then(v), rest, rest);
      ThenAssociative(u, v, rest);
    } else {
      assert ([x] + f)[1..] == f;
    }
  }

  lemma SwapView(g: seq<Node>, y: Node, marks: seq<Mark>)
    requires g != [] && !y.IsElement()
    ensures ViewAll([g[0], y] + g[1..], marks) == ViewAll(g, marks)
  {
    var r := [g[0], y] + g[1..];
    assert r[1..] == [y] + g[1..] && r[1..][1..] == g[1..];
    assert ViewAll(r[1..], marks) == BLANK.Then(ViewAll(g[1..], marks));
    BlankThen(ViewAll(g[1..], marks));
  }

  // Every character and element keeps its place, the tracked changes around it and the format
  // of its run.
  lemma {:induction false} FuseView(s: Sight, rule: Rule, ns: seq<Node>, marks: seq<Mark>)
    requires rule.Keeps(s)
    requires rule.Wrappers? ==> IsChange(rule.tag)
    requires rule == Runs ==> CleanAll(ns)
    ensures Alike(s, ViewAll(Fuse(rule, ns), marks), ViewAll(ns, marks))
  {
    if ns != [] {
      var f, x := Fuse(rule, ns[1..]), ViewOf(ns[0], marks);
      FuseView(s, rule, ns[1..], marks);
      if rule == Runs {
        FuseClean(Runs, ns[1..]);
      }
      PrependView(s, rule, ns[0], f, marks);
      AlikeThen(s, x, x, ViewAll(f, marks), ViewAll(ns[1..], marks));
    }
  }

  lemma FuseRunsView(ns: seq<Node>, marks: seq<Mark>)
    requires CleanAll(ns)
    ensures ViewAll(FuseRuns(ns), marks) == ViewAll(ns, marks)
  {
    FuseView(Sharp, Runs, ns, marks);
    AlikeSharp(ViewAll(Fuse(Runs, ns), marks), ViewAll(ns, marks));
    MergeTextsView(Fuse(Runs, ns), marks);
  }

  lemma {:induction false} MergeTextsView(ns: seq<Node>, marks: seq<Mark>)
    ensures ViewAll(MergeTextsAll(ns), marks) == ViewAll(ns, marks)
  {
    if ns != [] {
      MergeTextsView(ns[1..], marks);
      if ns[0].Is(R) {
        var below := MarksBelow(ns[0], marks);
        FuseView(Sharp, Texts, ns[0].kids, below);
        AlikeSharp(ViewAll(Fuse(Texts, ns[0].kids), below), ViewAll(ns[0].kids, below));
        PropsFused(ns[0].kids);
      }
    }
  }

  // ----- Cleanness is kept

  lemma {:induction false} MovedFrom(ns: seq<Node>)
    ensures forall n | n in Moved(ns) :: n in ns && n.IsElement() && !n.Is(RPr)
  {
    if ns != [] {
      MovedFrom(ns[1..]);
    }
  }

  lemma JoinClean(rule: Rule, a: Node, b: Node)
    requires Joins(rule, a, b) && Clean(a) && Clean(b)
    requires rule.Wrappers? ==> rule.tag in {Ins, Del}
    ensures Clean(Join(rule, a, b))
  {
    if rule == Runs {
      MovedFrom(b.kids);
    }
  }

  lemma FuseClean(rule: Rule, ns: seq<Node>)
    requires CleanAll(ns)
    requires rule.Wrappers? ==> rule.tag in {Ins, Del}
    ensures CleanAll(Fuse(rule, ns))
  {
    forall a, b | Joins(rule, a, b) && Clean(a) && Clean(b)
      ensures Clean(Join(rule, a, b))
    {
      JoinClean(rule, a, b);
    }
    FuseKeeps(rule, n => Clean(n), ns);
  }

  lemma FuseRunsClean(ns: seq<Node>)
    requires CleanAll(ns)
    ensures CleanAll(FuseRuns(ns))
  {
    FuseClean(Runs, ns);
    MergeTextsClean(Fuse(Runs, ns));
  }

  lemma {:induction false} MergeTextsClean(ns: seq<Node>)
    requires CleanAll(ns)
    ensures CleanAll(MergeTextsAll(ns))
  {
    if ns != [] {
      assert Clean(ns[0]);
      MergeTextsClean(ns[1..]);
      if ns[0].Is(R) {
        FuseClean(Texts, ns[0].kids);
        FuseKeeps(Texts, (n: Node) => !n.Is(R), ns[0].kids);
      }
    }
  }

  // ----- One element fewer for every merge

  // How many elements of a tag are gone when coalescing shortens a list by `gone`.
  function Lost(rule: Rule, tag: Tag, gone: int): int {
    match rule
    case Wrappers(t) => if tag == t then gone else 0
    case Runs => if tag == R then gone else 0
    case Texts => 0
  }

  lemma {:induction false} MovedKeepsRuns(ns: seq<Node>)
    requires CleanAll(ns)
    ensures CountAll(Moved(ns), R) == CountAll(ns, R)
  {
    if ns != [] {
      assert Clean(ns[0]);
      MovedKeepsRuns(ns[1..]);
      if ns[0].IsElement() && !ns[0].Is(RPr) {
        assert Moved(ns)[1..] == Moved(ns[1..]);
      } else if ns[0].Is(RPr) {
        BareHasNoRuns(ns[0].kids);
      }
    }
  }

  lemma {:induction false} BareHasNoRuns(ns: seq<Node>)
    requires forall n | n in ns :: Bare(n)
    ensures CountAll(ns, R) == 0
  {
    if ns != [] {
      assert Bare(ns[0]);
      if ns[0].Elem? {
        BareHasNoRuns(ns[0].kids);
      }
      BareHasNoRuns(ns[1..]);
    }
  }

  lemma JoinLosesOne(rule: Rule, a: Node, b: Node, tag: Tag)
    requires Joins(rule, a, b)
    requires rule == Runs ==> Clean(b) && tag == R
    ensures Count(Join(rule, a, b), tag) == Count(a, tag) + Count(b, tag)
                                            - Lost(rule, tag, 1)
  {
    match rule
    case Wrappers(_) => CountAppend(a.kids, b.kids, tag);
    case Runs =>
      MovedKeepsRuns(b.kids);
      CountAppend(a.kids, Moved(b.kids), R);
    case Texts =>
  }

  lemma {:induction false} PrependLoses(rule: Rule, x: Node, f: seq<Node>, tag: Tag)
    requires rule == Runs ==> CleanAll(f) && tag == R
    ensures CountAll(Prepend(rule, x, f), tag) ==
            Count(x, tag) + CountAll(f, tag) - Lost(rule, tag, 1 + |f| - |Prepend(rule, x, f)|)
  {
    if f == [] {
      assert [x][1..] == [];
    } else if Stops(rule, f[0]) {
      assert rule == Runs ==> Clean(f[0]);
      PrependHereLoses(rule, x, f, tag);
    } else {
      PrependLoses(rule, x, f[1..], tag);
      SwapCounts(Prepend(rule, x, f[1..]), f[0], tag);
    }
  }

  lemma PrependHereLoses(rule: Rule, x: Node, f: seq<Node>, tag: Tag)
    requires f != [] && Stops(rule, f[0])
    requires rule == Runs ==> Clean(f[0]) && tag == R
    ensures CountAll(Prepend(rule, x, f), tag) ==
            Count(x, tag) + CountAll(f, tag) - Lost(rule, tag, 1 + |f| - |Prepend(rule, x, f)|)
  {
    if Joins(rule, x, f[0]) {
      assert Prepend(rule, x, f)[1..] == f[1..];
      JoinLosesOne(rule, x, f[0], tag);
    } else {
      assert ([x] + f)[1..] == f;
    }
  }

  lemma SwapCounts(g: seq<Node>, y: Node, tag: Tag)
    requires g != []
    ensures CountAll([g[0], y] + g[1..], tag) == Count(y, tag) + CountAll(g, tag)
  {
    var r := [g[0], y] + g[1..];
    assert r[1..] == [y] + g[1..] && r[1..][1..] == g[1..];
  }

  // Coalescing removes exactly one element of its kind for each merge, and no other element.
  lemma {:induction false} FuseLoses(rule: Rule, ns: seq<Node>, tag: Tag)
    requires rule == Runs ==> CleanAll(ns) && tag == R
    ensures CountAll(Fuse(rule, ns), tag) ==
            CountAll(ns, tag) - Lost(rule, tag, |ns| - |Fuse(rule, ns)|)
  {
    if ns != [] {
      FuseLoses(rule, ns[1..], tag);
      if rule == Runs {
        FuseClean(Runs, ns[1..]);
      }
      PrependLoses(rule, ns[0], Fuse(rule, ns[1..]), tag);
    }
  }

  lemma {:induction false} MergeTextsKeepsRuns(ns: seq<Node>)
    ensures CountAll(MergeTextsAll(ns), R) == CountAll(ns, R)
    ensures |MergeTextsAll(ns)| == |ns|
  {
    if ns != [] {
      MergeTextsKeepsRuns(ns[1..]);
      if ns[0].Is(R) {
        FuseLoses(Texts, ns[0].kids, R);
      }
    }
  }

  lemma FuseRunsLoses(ns: seq<Node>)
    requires CleanAll(ns)
    ensures CountAll(FuseRuns(ns), R) == CountAll(ns, R) - (|ns| - |FuseRuns(ns)|)
  {
    var f := Fuse(Runs, ns);
    assert CountAll(f, R) == CountAll(ns, R) - (|ns| - |f|) by {
      FuseLoses(Runs, ns, R);
    }
    MergeTextsKeepsRuns(f);
  }
}
