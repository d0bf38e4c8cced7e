/** What the redlining validator can tell from two extracted texts, and so what accepting means. */
module TextComparison {
  import opened DocxTree
  import opened Options
  import opened Strings
  import opened Redlining
  import opened TrackedEdits

  // r are the strings at some places of ss, in order, ...
  ghost predicate Selects(ss: seq<string>, at: seq<nat>, r: seq<string>) {
    && |at| == |r| && (forall k | 0 <= k < |at| :: at[k] < |ss| && r[k] == ss[at[k]])
    && forall k, l | 0 <= k < l < |at| :: at[k] < at[l]
  }

  // ... which are all the places of non-empty strings.
  ghost predicate AllNonEmpty(ss: seq<string>, at: seq<nat>) {
    forall i: nat | i < |ss| :: i in at <==> ss[i] != ""
  }

  function Later(at: seq<nat>): seq<nat> {
    seq(|at|, k requires 0 <= k < |at| => at[k] + 1)
  }

  lemma LaterHas(at: seq<nat>, i: nat)
    ensures i + 1 in Later(at) <==> i in at
    ensures 0 !in Later(at)
  {
    if i in at {
      var k :| 0 <= k < |at| && at[k] == i;
      assert Later(at)[k] == i + 1;
    }
  }

  lemma SelectsLater(ss: seq<string>, at: seq<nat>, r: seq<string>)
    requires ss != [] && Selects(ss[1..], at, r)
    ensures Selects(ss, Later(at), r) && Selects(ss, [0] + Later(at), [ss[0]] + r)
  {
  }

  lemma NonEmptyLater(ss: seq<string>, later: seq<nat>)
    requires ss != [] && AllNonEmpty(ss[1..], later)
    ensures AllNonEmpty(ss, (if ss[0] == "" then [] else [0]) + Later(later))
  {
    forall i: nat | i < |ss|
      ensures i in (if ss[0] == "" then [] else [0]) + Later(later) <==> ss[i] != ""
    {
      LaterHas(later, if i == 0 then 0 else i - 1);
      assert i > 0 ==> ss[i] == ss[1..][i - 1];
    }
  }

  // The paragraphs that are compared: exactly those with any text, in their order.
  lemma {:induction false} NonEmptyExactly(ss: seq<string>) returns (at: seq<nat>)
    ensures Selects(ss, at, NonEmpty(ss)) && AllNonEmpty(ss, at)
  {
    if ss == [] {
      at := [];
    } else {
      var later := NonEmptyExactly(ss[1..]);
      at := (if ss[0] == "" then [] else [0]) + Later(later);
      SelectsLater(ss, later, NonEmpty(ss[1..]));
      assert [] + Later(later) == Later(later) && [] + NonEmpty(ss[1..]) == NonEmpty(ss[1..]);
      NonEmptyLater(ss, later);
    }
  }

  lemma {:induction false} NonEmptyIsNonEmpty(ss: seq<string>)
    ensures forall s | s in NonEmpty(ss) :: s != ""
    ensures forall s | s in NonEmpty(ss) :: s in ss
  {
    if ss != [] {
      NonEmptyIsNonEmpty(ss[1..]);
    }
  }

  lemma JoinedIsNotEmpty(ss: seq<string>)
    requires ss != [] && forall s | s in ss :: s != ""
    ensures JoinLines(ss) != ""
  {
    assert ss[0] in ss;
  }

  // Joined lists of non-empty strings are equal if and only if they have the same lines.
  lemma JoinedEqually(x: seq<string>, y: seq<string>)
    requires (forall s | s in x :: s != "") && forall s | s in y :: s != ""
    ensures JoinLines(x) == JoinLines(y) <==> LinesOf(x) == LinesOf(y)
  {
    if x != [] {
      JoinedIsNotEmpty(x);
      JoinedSplits(x);
      SplitJoins(JoinLines(x));
    }
    if y != [] {
      JoinedIsNotEmpty(y);
      JoinedSplits(y);
      SplitJoins(JoinLines(y));
    }
  }

  function TextsOf(root: Node): seq<string>
    requires root.Elem?
  {
    NonEmpty(ParagraphTexts(root.kids))
  }

  // Extracted texts are equal if and only if the paragraphs with text have the same lines ...
  lemma ExtractedTells(a: Node, b: Node)
    requires a.Elem? && b.Elem?
    ensures Extracted(a) == Extracted(b) <==> LinesOf(TextsOf(a)) == LinesOf(TextsOf(b))
  {
    NonEmptyIsNonEmpty(ParagraphTexts(a.kids));
    NonEmptyIsNonEmpty(ParagraphTexts(b.kids));
    JoinedEqually(TextsOf(a), TextsOf(b));
  }

  // ... so where no text holds a line feed, if and only if they are the same paragraphs.
  lemma ExtractedTellsParagraphs(a: Node, b: Node)
    requires a.Elem? && b.Elem?
    requires forall s | s in TextsOf(a) + TextsOf(b) :: LF !in s
    ensures Extracted(a) == Extracted(b) <==> TextsOf(a) == TextsOf(b)
  {
    ExtractedTells(a, b);
    assert forall s | s in TextsOf(a) :: s in TextsOf(a) + TextsOf(b);
    assert forall s | s in TextsOf(b) :: s in TextsOf(a) + TextsOf(b);
    LinesOfOneLiners(TextsOf(a));
    LinesOfOneLiners(TextsOf(b));
  }

  // With a line feed in a text, one paragraph and two are extracted alike.
  lemma LineFeedHidesParagraph()
    ensures var one := Elem(0, Other("document"), [], [Elem(1, P, [], [TextElem(T, "a\nb", None)])]);
            var two := Elem(0, Other("document"), [], [Elem(1, P, [], [TextElem(T, "a", None)]),
                                                       Elem(2, P, [], [TextElem(T, "b", None)])]);
            TextsOf(one) == ["a\nb"] && TextsOf(two) == ["a", "b"] && Extracted(one) == Extracted(two)
  {
    var a, b, ab := TextElem(T, "a", None), TextElem(T, "b", None), TextElem(T, "a\nb", None);
    var p, q, r := Elem(1, P, [], [a]), Elem(2, P, [], [b]), Elem(1, P, [], [ab]);
    LeftOne(a);
    LeftOne(b);
    LeftOne(ab);
    LeftOne(p);
    LeftOne(q);
    LeftOne(r);
    assert [p, q] == [p] + [q];
    LeftAppend([p], [q]);
    assert ParagraphTexts([p, q]) == ["a"] + ["b"] == ["a", "b"];
    assert ["a", "b"][1..] == ["b"] && ["b"][1..] == [] && ["a\nb"][1..] == [];
    assert JoinLines(["a", "b"]) == "a" + [LF] + JoinLines(["b"]) == "a\nb";
  }

  // ----- What accepting means

  // Where an element is in a tree: the child to take at each level.
  predicate Leads(path: seq<nat>, ns: seq<Node>) {
    path != [] && path[0] < |ns| && (|path| == 1 || (ns[path[0]].Elem? && Leads(path[1..], ns[path[0]].kids)))
  }

  function At(path: seq<nat>, ns: seq<Node>): Node
    requires Leads(path, ns)
  {
    if |path| == 1 then ns[path[0]] else At(path[1..], ns[path[0]].kids)
  }

  // The author has made a tracked change, somewhere.
  ghost predicate HasChanged(a: string, ns: seq<Node>) {
    exists path :: Leads(path, ns) && IsOwn(a, At(path, ns))
  }

  lemma {:induction false} HasChangeByExactly(a: string, ns: seq<Node>)
    ensures HasChangeBy(a, ns) <==> HasChanged(a, ns)
  {
    if ns != [] {
      HasChangeByExactly(a, ns[1..]);
      if ns[0].Elem? {
        HasChangeByExactly(a, ns[0].kids);
      }
      if HasChanged(a, ns) {
        var path :| Leads(path, ns) && IsOwn(a, At(path, ns));
        ChangeFound(a, ns, path);
      } else {
        ChangeStays(a, ns);
      }
    }
  }

  // A path leads to the first node, below it, or past it.
  lemma ChangeFound(a: string, ns: seq<Node>, path: seq<nat>)
    requires ns != [] && Leads(path, ns) && IsOwn(a, At(path, ns))
    ensures IsOwn(a, ns[0]) || (ns[0].Elem? && HasChanged(a, ns[0].kids)) || HasChanged(a, ns[1..])
  {
    if path[0] > 0 {
      var past := [path[0] - 1] + path[1..];
      assert past[1..] == path[1..];
      assert Leads(past, ns[1..]) && At(past, ns[1..]) == At(path, ns);
    } else if |path| > 1 {
      assert Leads(path[1..], ns[0].kids);
    }
  }

  lemma ChangeStays(a: string, ns: seq<Node>)
    requires ns != []
    ensures IsOwn(a, ns[0]) || (ns[0].Elem? && HasChanged(a, ns[0].kids)) || HasChanged(a, ns[1..]) ==> HasChanged(a, ns)
  {
    if IsOwn(a, ns[0]) {
      assert Leads([0], ns) && At([0], ns) == ns[0];
    } else if ns[0].Elem? && HasChanged(a, ns[0].kids) {
      var path :| Leads(path, ns[0].kids) && IsOwn(a, At(path, ns[0].kids));
      assert ([0] + path)[1..] == path;
      assert Leads([0] + path, ns) && At([0] + path, ns) == At(path, ns[0].kids);
    } else if HasChanged(a, ns[1..]) {
      var path :| Leads(path, ns[1..]) && IsOwn(a, At(path, ns[1..]));
      var past := [path[0] + 1] + path[1..];
      assert past[1..] == path[1..];
      assert Leads(past, ns) && At(past, ns) == At(path, ns[1..]);
    }
  }

  // What is left of the paragraphs of a document, where anything is.
  ghost function LeftOver(a: string, root: Node): seq<string>
    requires root.Elem?
  {
    NonEmpty(SurvivingPars(a, Outline(root).pars))
  }

  // The validator accepts a document if and only if the author has changed nothing in it, or
  // what is left without the author's changes has the same lines as what is left of the original.
  lemma AcceptsExactly(a: string, original: Node, modified: Node)
    requires original.Elem? && modified.Elem?
    ensures Accepts(a, original, modified) <==>
            !HasChanged(a, modified.kids) || LinesOf(LeftOver(a, modified)) == LinesOf(LeftOver(a, original))
  {
    HasChangeByExactly(a, modified.kids);
    RejectedText(a, original);
    RejectedText(a, modified);
    NonEmptyIsNonEmpty(SurvivingPars(a, Outline(original).pars));
    NonEmptyIsNonEmpty(SurvivingPars(a, Outline(modified).pars));
    JoinedEqually(LeftOver(a, modified), LeftOver(a, original));
  }

  // Where no text holds a line feed: the same paragraphs, one by one.
  lemma AcceptsByParagraph(a: string, original: Node, modified: Node)
    requires original.Elem? && modified.Elem?
    requires forall s | s in LeftOver(a, original) + LeftOver(a, modified) :: LF !in s
    ensures Accepts(a, original, modified) <==>
            !HasChanged(a, modified.kids) || LeftOver(a, modified) == LeftOver(a, original)
  {
    AcceptsExactly(a, original, modified);
    assert forall s | s in LeftOver(a, original) :: s in LeftOver(a, original) + LeftOver(a, modified);
    assert forall s | s in LeftOver(a, modified) :: s in LeftOver(a, original) + LeftOver(a, modified);
    LinesOfOneLiners(LeftOver(a, original));
    LinesOfOneLiners(LeftOver(a, modified));
  }
}
