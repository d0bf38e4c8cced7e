/** The two walks of the redlining validator. Each visits every parent of the tree, changes the
    parent's child list first, and then goes on to the children that the list has by then. */
module RejectionWalk {
  import opened DocxTree
  import opened Redlining
  import Strings

  // ----- One parent's child list

  function Kept(a: string, ns: seq<Node>): seq<Node> {
    if ns == [] then [] else (if IsBy(ns[0], Ins, a) then [] else [ns[0]]) + Kept(a, ns[1..])
  }

  function Spliced(a: string, ns: seq<Node>): seq<Node> {
    if ns == [] then []
    else (if IsBy(ns[0], Del, a) then RestoreAll(ns[0].kids) else [ns[0]]) + Spliced(a, ns[1..])
  }

  function Size(n: Node): nat {
    if n.Elem? then 1 + SizeAll(n.kids) else 1
  }

  function SizeAll(ns: seq<Node>): nat {
    if ns == [] then 0 else Size(ns[0]) + SizeAll(ns[1..])
  }

  // `at` lists the positions in ns of the author's changes with the given tag.
  ghost predicate Finds(a: string, tag: Tag, ns: seq<Node>, at: seq<nat>) {
    && (forall i | 0 <= i < |at| :: at[i] < |ns| && IsBy(ns[at[i]], tag, a))
    && (forall i, j | 0 <= i < j < |at| :: at[i] < at[j])
    && (forall k | 0 <= k < |ns| && IsBy(ns[k], tag, a) :: k in at)
  }

  method Find(a: string, tag: Tag, ns: seq<Node>) returns (at: seq<nat>)
    ensures Finds(a, tag, ns, at)
  {
    at := [];
    for k := 0 to |ns|
      invariant forall i | 0 <= i < |at| :: at[i] < k && IsBy(ns[at[i]], tag, a)
      invariant forall i, j | 0 <= i < j < |at| :: at[i] < at[j]
      invariant forall m | 0 <= m < k && IsBy(ns[m], tag, a) :: m in at
    {
      if IsBy(ns[k], tag, a) {
        at := at + [k];
      }
    }
  }

  // Where the part of ns that comes before the i-th found position ends.
  function Cut(ns: seq<Node>, at: seq<nat>, i: nat): nat
    requires i <= |at|
  {
    if i < |at| then at[i] else |ns|
  }

  lemma NoneBetween(a: string, tag: Tag, ns: seq<Node>, at: seq<nat>, i: nat)
    requires Finds(a, tag, ns, at) && i < |at|
    ensures at[i] < Cut(ns, at, i + 1) <= |ns|
    ensures forall k | at[i] < k < Cut(ns, at, i + 1) :: !IsBy(ns[k], tag, a)
  {
    forall k | at[i] < k < Cut(ns, at, i + 1)
      ensures !IsBy(ns[k], tag, a)
    {
      if IsBy(ns[k], tag, a) {
        assert k in at;
        var x :| 0 <= x < |at| && at[x] == k;
      }
    }
  }

  lemma NoneBefore(a: string, tag: Tag, ns: seq<Node>, at: seq<nat>)
    requires Finds(a, tag, ns, at)
    ensures Cut(ns, at, 0) <= |ns|
    ensures forall k | 0 <= k < Cut(ns, at, 0) :: !IsBy(ns[k], tag, a)
  {
    forall k | 0 <= k < Cut(ns, at, 0)
      ensures !IsBy(ns[k], tag, a)
    {
      assert IsBy(ns[k], tag, a) ==> k in at;
    }
  }

  lemma {:induction false} KeptAppend(a: string, x: seq<Node>, y: seq<Node>)
    ensures Kept(a, x + y) == Kept(a, x) + Kept(a, y)
  {
    if x == [] {
      assert x + y == y;
    } else {
      assert (x + y)[1..] == x[1..] + y;
      KeptAppend(a, x[1..], y);
    }
  }

  lemma {:induction false} KeptAll(a: string, ns: seq<Node>)
    requires forall k | 0 <= k < |ns| :: !IsBy(ns[k], Ins, a)
    ensures Kept(a, ns) == ns
  {
    if ns != [] {
      KeptAll(a, ns[1..]);
    }
  }

  lemma {:induction false} SplicedPast(a: string, x: seq<Node>, y: seq<Node>)
    requires forall k | 0 <= k < |x| :: !IsBy(x[k], Del, a)
    ensures Spliced(a, x + y) == x + Spliced(a, y)
  {
    if x == [] {
      assert x + y == y;
    } else {
      assert (x + y)[1..] == x[1..] + y;
      SplicedPast(a, x[1..], y);
    }
  }

  // The list after the first i removals: what is kept of ns up to the cut, and all the rest.
  ghost predicate RemovedUpTo(a: string, ns: seq<Node>, at: seq<nat>, i: nat, kids: seq<Node>) {
    i <= |at| && Cut(ns, at, i) <= |ns| &&
    var kept := Kept(a, ns[..Cut(ns, at, i)]);
    |kept| == Cut(ns, at, i) - i && kids == kept + ns[Cut(ns, at, i)..]
  }

  lemma RemovalStarts(a: string, ns: seq<Node>, at: seq<nat>)
    requires Finds(a, Ins, ns, at)
    ensures RemovedUpTo(a, ns, at, 0, ns)
  {
    NoneBefore(a, Ins, ns, at);
    KeptAll(a, ns[..Cut(ns, at, 0)]);
  }

  lemma RemovalStep(a: string, ns: seq<Node>, at: seq<nat>, i: nat, kids: seq<Node>)
    requires Finds(a, Ins, ns, at) && i < |at| && RemovedUpTo(a, ns, at, i, kids)
    ensures i <= at[i] && at[i] - i < |kids|
    ensures RemovedUpTo(a, ns, at, i + 1, kids[..at[i] - i] + kids[at[i] - i + 1..])
  {
    NoneBetween(a, Ins, ns, at, i);
    var p, q := at[i], Cut(ns, at, i + 1);
    KeptUpTo(a, ns, p, q);
    DropOne(Kept(a, ns[..p]), ns, p, q);
  }

  lemma KeptUpTo(a: string, ns: seq<Node>, p: nat, q: nat)
    requires p < q <= |ns| && IsBy(ns[p], Ins, a) && forall k | p < k < q :: !IsBy(ns[k], Ins, a)
    ensures Kept(a, ns[..q]) == Kept(a, ns[..p]) + ns[p + 1..q]
  {
    TakeParts(ns, p, q);
    KeptParts(a, ns[..p], ns[p], ns[p + 1..q]);
  }

  lemma KeptParts(a: string, pre: seq<Node>, x: Node, gap: seq<Node>)
    requires IsBy(x, Ins, a) && forall k | 0 <= k < |gap| :: !IsBy(gap[k], Ins, a)
    ensures Kept(a, pre + ([x] + gap)) == Kept(a, pre) + gap
  {
    KeptAppend(a, pre, [x] + gap);
    KeptSkips(a, x, gap);
    KeptAll(a, gap);
  }

  lemma KeptSkips(a: string, x: Node, gap: seq<Node>)
    requires IsBy(x, Ins, a)
    ensures Kept(a, [x] + gap) == Kept(a, gap)
  {
    assert ([x] + gap)[1..] == gap;
  }

  lemma TakeParts(ns: seq<Node>, p: nat, q: nat)
    requires p < q <= |ns|
    ensures ns[..q] == ns[..p] + ([ns[p]] + ns[p + 1..q])
  {
  }

  lemma DropOne(kept: seq<Node>, ns: seq<Node>, p: nat, q: nat)
    requires p < q <= |ns|
    ensures var kids := kept + ns[p..];
            kids[..|kept|] + kids[|kept| + 1..] == kept + ns[p + 1..q] + ns[q..]
  {
  }

  // The first loop of _remove_author_tracked_changes, at one parent.
  method RemoveInsertions(a: string, ns: seq<Node>) returns (kids: seq<Node>)
    ensures kids == Kept(a, ns)
  {
    var toRemove := Find(a, Ins, ns);
    kids := ns;
    RemovalStarts(a, ns, toRemove);
    for i := 0 to |toRemove|
      invariant RemovedUpTo(a, ns, toRemove, i, kids)
    {
      RemovalStep(a, ns, toRemove, i, kids);
      var at := toRemove[i] - i;
      kids := kids[..at] + kids[at + 1..];
    }
    assert ns[..|ns|] == ns;
  }

  lemma SplicingStep(a: string, ns: seq<Node>, at: seq<nat>, i: nat)
    requires Finds(a, Del, ns, at) && i < |at|
    ensures var q := Cut(ns, at, i + 1);
            at[i] < q <= |ns| &&
            ns[at[i] + 1..q] + Spliced(a, ns[q..]) == Spliced(a, ns[at[i] + 1..])
    ensures Spliced(a, ns[at[i]..]) == RestoreAll(ns[at[i]].kids) + Spliced(a, ns[at[i] + 1..])
  {
    NoneBetween(a, Del, ns, at, i);
    var p, q := at[i], Cut(ns, at, i + 1);
    assert ns[p + 1..] == ns[p + 1..q] + ns[q..];
    SplicedPast(a, ns[p + 1..q], ns[q..]);
    assert ns[p..][1..] == ns[p + 1..];
  }

  // The list once the deletions from the i-th on have been replaced.
  ghost predicate SplicedFrom(a: string, ns: seq<Node>, at: seq<nat>, i: nat, kids: seq<Node>) {
    i <= |at| && Cut(ns, at, i) <= |ns| && kids == ns[..Cut(ns, at, i)] + Spliced(a, ns[Cut(ns, at, i)..])
  }

  lemma SplicingStarts(a: string, ns: seq<Node>, at: seq<nat>)
    ensures SplicedFrom(a, ns, at, |at|, ns)
  {
    assert ns == ns[..|ns|] + [];
  }

  lemma SplicingRound(a: string, ns: seq<Node>, at: seq<nat>, i: nat, kids: seq<Node>)
    requires Finds(a, Del, ns, at) && i < |at| && SplicedFrom(a, ns, at, i + 1, kids)
    ensures at[i] < |ns| && ns[at[i]].Elem?
    ensures kids == ns[..at[i]] + [ns[at[i]]] + Spliced(a, ns[at[i] + 1..])
    ensures SplicedFrom(a, ns, at, i, ns[..at[i]] + (RestoreAll(ns[at[i]].kids) + Spliced(a, ns[at[i] + 1..])))
  {
    SplicingStep(a, ns, at, i);
    CutParts(ns, at[i], Cut(ns, at, i + 1), Spliced(a, ns[Cut(ns, at, i + 1)..]));
  }

  lemma CutParts(ns: seq<Node>, p: nat, q: nat, tail: seq<Node>)
    requires p < q <= |ns|
    ensures ns[..q] + tail == ns[..p] + [ns[p]] + (ns[p + 1..q] + tail)
  {
  }

  lemma SplicingEnds(a: string, ns: seq<Node>, at: seq<nat>, kids: seq<Node>)
    requires Finds(a, Del, ns, at) && SplicedFrom(a, ns, at, 0, kids)
    ensures kids == Spliced(a, ns)
  {
    NoneBefore(a, Del, ns, at);
    SplicedFromCut(a, ns, Cut(ns, at, 0));
  }

  lemma SplicedFromCut(a: string, ns: seq<Node>, q: nat)
    requires q <= |ns| && forall k | 0 <= k < q :: !IsBy(ns[k], Del, a)
    ensures Spliced(a, ns) == ns[..q] + Spliced(a, ns[q..])
  {
    SplicedPast(a, ns[..q], ns[q..]);
    assert ns == ns[..q] + ns[q..];
  }

  // The second loop, at one parent. The indices recorded beforehand stay right because the
  // deletions are replaced from the last to the first.
  method SpliceDeletions(a: string, ns: seq<Node>) returns (kids: seq<Node>)
    ensures kids == Spliced(a, ns)
  {
    var toProcess := Find(a, Del, ns);
    kids := ns;
    var i := |toProcess|;
    SplicingStarts(a, ns, toProcess);
    while i > 0
      invariant 0 <= i <= |toProcess|
      invariant SplicedFrom(a, ns, toProcess, i, kids)
    {
      i := i - 1;
      SplicingRound(a, ns, toProcess, i, kids);
      kids := ReplaceDeletion(kids, ns, toProcess[i], Spliced(a, ns[toProcess[i] + 1..]));
    }
    SplicingEnds(a, ns, toProcess, kids);
  }

  // Inserts a deletion's restored children at its index, last one first, and removes it.
  method ReplaceDeletion(list: seq<Node>, ns: seq<Node>, index: nat, ghost after: seq<Node>) returns (kids: seq<Node>)
    requires index < |ns| && ns[index].Elem?
    requires list == ns[..index] + [ns[index]] + after
    ensures kids == ns[..index] + (RestoreAll(ns[index].kids) + after)
  {
    kids := list;
    var children := RestoreAll(kids[index].kids);
    var k := |children|;
    while k > 0
      invariant 0 <= k <= |children|
      invariant kids == ns[..index] + children[k..] + [ns[index]] + after
    {
      k := k - 1;
      kids := kids[..index] + [children[k]] + kids[index..];
      assert children[k..] == [children[k]] + children[k + 1..];
    }
    var at := index + |children|;
    kids := kids[..at] + kids[at + 1..];
  }

  // ----- The walks

  lemma {:induction false} SizeAppend(x: seq<Node>, y: seq<Node>)
    ensures SizeAll(x + y) == SizeAll(x) + SizeAll(y)
  {
    if x == [] {
      assert x + y == y;
    } else {
      assert (x + y)[1..] == x[1..] + y;
      SizeAppend(x[1..], y);
    }
  }

  lemma {:induction false} SizeOfMember(ns: seq<Node>, k: nat)
    requires k < |ns|
    ensures Size(ns[k]) <= SizeAll(ns)
  {
    if k > 0 {
      SizeOfMember(ns[1..], k - 1);
    }
  }

  lemma {:induction false} SizeRestored(ns: seq<Node>)
    ensures SizeAll(RestoreAll(ns)) == SizeAll(ns)
  {
    if ns != [] {
      if ns[0].Elem? {
        SizeRestored(ns[0].kids);
      }
      SizeRestored(ns[1..]);
    }
  }

  lemma {:induction false} SizeKept(a: string, ns: seq<Node>)
    ensures SizeAll(Kept(a, ns)) <= SizeAll(ns)
    ensures SizeAll(Spliced(a, ns)) <= SizeAll(ns)
  {
    if ns != [] {
      SizeKept(a, ns[1..]);
      SizeAppend(if IsBy(ns[0], Ins, a) then [] else [ns[0]], Kept(a, ns[1..]));
      SizeAppend(if IsBy(ns[0], Del, a) then RestoreAll(ns[0].kids) else [ns[0]], Spliced(a, ns[1..]));
      if ns[0].Elem? {
        SizeRestored(ns[0].kids);
      }
    }
  }

  lemma {:induction false} DropInsWalk(a: string, ns: seq<Node>, out: seq<Node>)
    requires |out| == |Kept(a, ns)|
    requires forall k | 0 <= k < |out| :: out[k] == DropInsBelow(a, Kept(a, ns)[k])
    ensures out == DropIns(a, ns)
  {
    if ns != [] {
      if IsBy(ns[0], Ins, a) {
        assert Kept(a, ns) == Kept(a, ns[1..]);
        DropInsWalk(a, ns[1..], out);
      } else {
        assert Kept(a, ns)[1..] == Kept(a, ns[1..]);
        DropInsWalk(a, ns[1..], out[1..]);
      }
    }
  }

  method DropInsertions(a: string, n: Node) returns (m: Node)
    ensures m == DropInsBelow(a, n)
    decreases Size(n)
  {
    if !n.Elem? {
      return n;
    }
    var kids := RemoveInsertions(a, n.kids);
    var done: seq<Node> := [];
    for k := 0 to |kids|
      invariant |done| == k && forall i | 0 <= i < k :: done[i] == DropInsBelow(a, kids[i])
    {
      SizeKept(a, n.kids);
      SizeOfMember(kids, k);
      var child := DropInsertions(a, kids[k]);
      done := done + [child];
    }
    DropInsWalk(a, n.kids, done);
    m := n.(kids := done);
  }

  // Reading delText as t before visiting is the same as doing so while visiting.
  lemma {:induction false} VisitRestored(a: string, ns: seq<Node>, r: bool)
    ensures VisitAll(a, RestoreAll(ns), r, false) == VisitAll(a, ns, true, false)
    ensures Splice(a, RestoreAll(ns), r, false) == Splice(a, ns, true, false)
  {
    if ns != [] {
      VisitRestored(a, ns[1..], r);
      assert RestoreAll(ns)[1..] == RestoreAll(ns[1..]);
      if ns[0].Elem? {
        VisitRestored(a, ns[0].kids, r);
        VisitRestored(a, ns[0].kids, true);
      }
    }
  }

  lemma {:induction false} VisitAppend(a: string, x: seq<Node>, y: seq<Node>, r: bool)
    ensures VisitAll(a, x + y, r, false) == VisitAll(a, x, r, false) + VisitAll(a, y, r, false)
  {
    if x == [] {
      assert x + y == y;
    } else {
      assert (x + y)[1..] == x[1..] + y;
      VisitAppend(a, x[1..], y, r);
    }
  }

  lemma {:induction false} SpliceThenVisit(a: string, ns: seq<Node>)
    ensures VisitAll(a, Spliced(a, ns), false, false) == Splice(a, ns, false, false)
  {
    if ns != [] {
      SpliceThenVisit(a, ns[1..]);
      var h := if IsBy(ns[0], Del, a) then RestoreAll(ns[0].kids) else [ns[0]];
      VisitAppend(a, h, Spliced(a, ns[1..]), false);
      if IsBy(ns[0], Del, a) {
        VisitRestored(a, ns[0].kids, false);
      } else {
        assert VisitAll(a, [ns[0]], false, false) == [Visit(a, ns[0], false, false)] + VisitAll(a, [ns[0]][1..], false, false);
      }
    }
  }

  lemma {:induction false} VisitAllAt(a: string, ns: seq<Node>, out: seq<Node>)
    requires |out| == |ns| && forall k | 0 <= k < |ns| :: out[k] == Visit(a, ns[k], false, false)
    ensures out == VisitAll(a, ns, false, false)
  {
    if ns != [] {
      VisitAllAt(a, ns[1..], out[1..]);
    }
  }

  method UndoDeletions(a: string, n: Node) returns (m: Node)
    ensures m == Visit(a, n, false, false)
    decreases Size(n)
  {
    if !n.Elem? {
      return n;
    }
    var kids := SpliceDeletions(a, n.kids);
    var done: seq<Node> := [];
    SizeKept(a, n.kids);
    for k := 0 to |kids|
      invariant |done| == k && forall i | 0 <= i < k :: done[i] == Visit(a, kids[i], false, false)
    {
      SizeOfMember(kids, k);
      var child := UndoDeletions(a, kids[k]);
      done := done + [child];
    }
    VisitAllAt(a, kids, done);
    SpliceThenVisit(a, n.kids);
    m := n.(kids := done);
  }

  // ----- Text extraction

  function FindAll(ns: seq<Node>, tag: Tag): seq<Node> {
    if ns == [] then []
    else
      (if ns[0].Is(tag) then [ns[0]] else []) + (if ns[0].Elem? then FindAll(ns[0].kids, tag) else [])
      + FindAll(ns[1..], tag)
  }

  // The texts of the `t` elements of a subtree.
  function FindTexts(ns: seq<Node>): seq<string> {
    if ns == [] then []
    else
      (match ns[0]
       case TextElem(kind, text, _) => if kind == T then [text] else []
       case Elem(_, _, _, kids) => FindTexts(kids)
       case _ => []) + FindTexts(ns[1..])
  }

  function Concat(ss: seq<string>): string {
    if ss == [] then "" else ss[0] + Concat(ss[1..])
  }

  lemma {:induction false} ConcatAppend(x: seq<string>, y: seq<string>)
    ensures Concat(x + y) == Concat(x) + Concat(y)
  {
    if x == [] {
      assert x + y == y;
    } else {
      assert (x + y)[1..] == x[1..] + y;
      ConcatAppend(x[1..], y);
    }
  }

  lemma {:induction false} FoundTexts(ns: seq<Node>)
    ensures Concat(FindTexts(ns)) == TextOf(ns)
  {
    if ns != [] {
      FoundTexts(ns[1..]);
      match ns[0] {
        case TextElem(kind, text, _) =>
          assert Concat([text]) == text + Concat([text][1..]) == text;
          ConcatAppend(if kind == T then [text] else [], FindTexts(ns[1..]));
        case Elem(_, _, _, kids) =>
          FoundTexts(kids);
          ConcatAppend(FindTexts(kids), FindTexts(ns[1..]));
        case _ =>
          assert [] + FindTexts(ns[1..]) == FindTexts(ns[1..]);
      }
    }
  }

  function TextsOfAll(ps: seq<Node>): seq<string>
    requires forall k | 0 <= k < |ps| :: ps[k].Elem?
  {
    if ps == [] then [] else [TextOf(ps[0].kids)] + TextsOfAll(ps[1..])
  }

  lemma {:induction false} TextsOfAppend(x: seq<Node>, y: seq<Node>)
    requires (forall k | 0 <= k < |x| :: x[k].Elem?) && forall k | 0 <= k < |y| :: y[k].Elem?
    ensures TextsOfAll(x + y) == TextsOfAll(x) + TextsOfAll(y)
  {
    if x == [] {
      assert x + y == y;
    } else {
      assert (x + y)[1..] == x[1..] + y;
      TextsOfAppend(x[1..], y);
    }
  }

  lemma {:induction false} FoundParagraphs(ns: seq<Node>)
    ensures forall k | 0 <= k < |FindAll(ns, P)| :: FindAll(ns, P)[k].Elem?
    ensures TextsOfAll(FindAll(ns, P)) == ParagraphTexts(ns)
  {
    if ns != [] {
      FoundParagraphs(ns[1..]);
      if ns[0].Elem? {
        FoundParagraphs(ns[0].kids);
      }
      var own, below := if ns[0].Is(P) then [ns[0]] else [], if ns[0].Elem? then FindAll(ns[0].kids, P) else [];
      assert ns[0].Is(P) ==> TextsOfAll([ns[0]]) == [TextOf(ns[0].kids)] + TextsOfAll([ns[0]][1..]);
      TextsOfAppend(own, below);
      TextsOfAppend(own + below, FindAll(ns[1..], P));
    }
  }

  method ParagraphText(kids: seq<Node>) returns (text: string)
    ensures text == TextOf(kids)
  {
    var ts := FindTexts(kids);
    FoundTexts(kids);
    text := "";
    for j := 0 to |ts|
      invariant text + Concat(ts[j..]) == Concat(ts)
    {
      assert ts[j..][1..] == ts[j + 1..];
      if ts[j] != "" {
        text := text + ts[j];
      }
    }
  }

  // The non-empty texts of the first i paragraphs have been collected.
  ghost predicate Collected(ps: seq<Node>, i: nat, paragraphs: seq<string>) {
    && i <= |ps| && (forall k | 0 <= k < |ps| :: ps[k].Elem?)
    && paragraphs + NonEmpty(TextsOfAll(ps[i..])) == NonEmpty(TextsOfAll(ps))
  }

  lemma CollectOne(ps: seq<Node>, i: nat, paragraphs: seq<string>)
    requires Collected(ps, i, paragraphs) && i < |ps|
    ensures var text := TextOf(ps[i].kids);
            Collected(ps, i + 1, if text != "" then paragraphs + [text] else paragraphs)
  {
    var text, rest := TextOf(ps[i].kids), TextsOfAll(ps[i + 1..]);
    assert ps[i..][1..] == ps[i + 1..];
    assert TextsOfAll(ps[i..]) == [text] + rest;
    NonEmptyCons(text, rest);
    if text != "" {
      assert paragraphs + ([text] + NonEmpty(rest)) == paragraphs + [text] + NonEmpty(rest);
    }
  }

  lemma NonEmptyCons(s: string, rest: seq<string>)
    ensures NonEmpty([s] + rest) == (if s == "" then NonEmpty(rest) else [s] + NonEmpty(rest))
  {
    assert ([s] + rest)[1..] == rest;
  }

  // _extract_text_content
  method ExtractTextContent(root: Node) returns (text: string)
    requires root.Elem?
    ensures text == Extracted(root)
  {
    var ps := FindAll(root.kids, P);
    FoundParagraphs(root.kids);
    var paragraphs: seq<string> := [];
    assert ps[0..] == ps;
    for i := 0 to |ps|
      invariant Collected(ps, i, paragraphs)
    {
      var paragraphText := ParagraphText(ps[i].kids);
      CollectOne(ps, i, paragraphs);
      if paragraphText != "" {
        paragraphs := paragraphs + [paragraphText];
      }
    }
    assert paragraphs + NonEmpty([]) == paragraphs;
    text := Strings.JoinLines(paragraphs);
  }
}
