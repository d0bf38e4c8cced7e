/** Where the theorems about unpacking need their conditions: documents on which they fail
    without them. */
module UnpackingLimits {
  import opened DocxTree
  import opened Options
  import opened Coalesce
  import opened TreePasses
  import opened Redlining
  import opened Unpacking

  function Doc(kids: seq<Node>): Node {
    Elem(0, Other("document"), [], kids)
  }

  function Run(id: nat, text: string): Node {
    Elem(id, R, [], [TextElem(T, text, None)])
  }

  // Two insertions, one without an author and one whose author is "", read alike to the pass
  // that merges them but not to the validator that rejects the changes of "".
  function AuthorlessDoc(): Node {
    Doc([Elem(1, P, [], [Elem(2, Ins, [], [Run(3, "x")]), Elem(4, Ins, [(AUTHOR, "")], [Run(5, "y")])])])
  }

  lemma AuthorlessIsClean()
    ensures Clean(AuthorlessDoc())
  {
    var i, j := AuthorlessDoc().kids[0].kids[0], AuthorlessDoc().kids[0].kids[1];
    assert Clean(i.kids[0]) && Clean(j.kids[0]);
    assert Clean(i) && Clean(j);
    assert Clean(AuthorlessDoc().kids[0]);
  }

  lemma AuthorlessSimplified()
    ensures Simplified(AuthorlessDoc()) == Doc([Elem(1, P, [], [Elem(2, Ins, [], [Run(3, "x"), Run(5, "y")])])])
  {
    var x, y := Run(3, "x"), Run(5, "y");
    var i, j := Elem(2, Ins, [], [x]), Elem(4, Ins, [(AUTHOR, "")], [y]);
    var p := Elem(1, P, [], [i, j]);
    SameBelow(i);
    SameBelow(j);
    TwoBelow(i, j);
    assert Author(i) == None && Author(j) == Some("");
    FuseTwo(Wrappers(Ins), i, j);
    assert [x] + [y] == [x, y];
    FuseOne(Wrappers(Del), Elem(2, Ins, [], [x, y]));
    assert EverywhereAll(Simplify, [p]) == [Everywhere(Simplify, p)] by {
      assert [p][1..] == [];
    }
  }

  lemma TwoBelow(i: Node, j: Node)
    requires Everywhere(Simplify, i) == i && Everywhere(Simplify, j) == j
    ensures EverywhereAll(Simplify, [i, j]) == [i, j]
  {
    assert [i, j][1..] == [j] && [j][1..] == [];
    assert EverywhereAll(Simplify, [j]) == [j] + EverywhereAll(Simplify, [j][1..]) == [j];
  }

  lemma SameBelow(w: Node)
    requires w.Is(Ins) && |w.kids| == 1 && w.kids[0].Is(R) && |w.kids[0].kids| == 1 && w.kids[0].kids[0].TextElem?
    ensures Everywhere(Simplify, w) == w
  {
    var r := w.kids[0];
    assert EverywhereAll(Simplify, r.kids) == [r.kids[0]] + EverywhereAll(Simplify, r.kids[1..]) == r.kids;
    assert EverywhereAll(Simplify, w.kids) == [r] + EverywhereAll(Simplify, w.kids[1..]) == w.kids;
  }

  lemma FuseOne(rule: Rule, n: Node)
    ensures Fuse(rule, [n]) == [n]
  {
    assert [n][1..] == [];
  }

  lemma FuseTwo(rule: Rule, a: Node, b: Node)
    requires Joins(rule, a, b)
    ensures Fuse(rule, [a, b]) == [Join(rule, a, b)]
  {
    FuseOne(rule, b);
    assert [a, b][1..] == [b];
    assert [b][1..] == [];
    assert Prepend(rule, a, [b]) == [Join(rule, a, b)] + [b][1..];
  }

  lemma RunLeft(id: nat, text: string)
    ensures DropIns("", [Run(id, text)]) == [Run(id, text)]
    ensures Splice("", [Run(id, text)], false, false) == [Run(id, text)]
    ensures LeftOf([Run(id, text)]) == Left(text, [])
  {
    var t, r := TextElem(T, text, None), Run(id, text);
    assert DropIns("", [t]) == [t] + DropIns("", [t][1..]) == [t];
    assert Splice("", [t], false, false) == Piece("", t, false, false) + Splice("", [t][1..], false, false) == [t];
    assert DropIns("", [r]) == [r] + DropIns("", [r][1..]) == [r];
    assert Splice("", [r], false, false) == Piece("", r, false, false) + Splice("", [r][1..], false, false) == [r];
    LeftOne(t);
    LeftOne(r);
  }

  lemma TwoRunsLeft(x: Node, y: Node)
    requires DropIns("", [x]) == [x] == Splice("", [x], false, false)
    requires DropIns("", [y]) == [y] == Splice("", [y], false, false)
    ensures DropIns("", [x, y]) == [x, y] == Splice("", [x, y], false, false)
  {
    assert [x, y][1..] == [y] && [x][1..] == [];
    assert [x, y] == [x] + [y];
  }

  lemma EmptyAuthorLosesText()
    ensures Clean(AuthorlessDoc())
    ensures Extracted(RejectInPlace("", AuthorlessDoc())) == "x"
    ensures Extracted(RejectInPlace("", Simplified(AuthorlessDoc()))) == "xy"
  {
    AuthorlessIsClean();
    AuthorlessSimplified();
    LeftBefore();
    LeftAfter();
  }

  lemma LeftBefore()
    ensures Extracted(RejectInPlace("", AuthorlessDoc())) == "x"
  {
    var i, j := Elem(2, Ins, [], [Run(3, "x")]), Elem(4, Ins, [(AUTHOR, "")], [Run(5, "y")]);
    RunLeft(3, "x");
    assert IsBy(j, Ins, "");
    assert DropIns("", [j]) == DropIns("", [j][1..]) == [];
    OneParagraphLeft(i, [j], "x");
    assert [i] + [j] == [i, j];
  }

  lemma TwoTextsLeft(x: Node, y: Node)
    requires x == Run(3, "x") && y == Run(5, "y")
    ensures Splice("", DropIns("", [x, y]), false, false) == [x, y]
    ensures LeftOf([x, y]) == Left("xy", [])
  {
    RunLeft(3, "x");
    RunLeft(5, "y");
    TwoRunsLeft(x, y);
    LeftAppend([x], [y]);
    assert [x] + [y] == [x, y];
  }

  lemma LeftAfter()
    ensures Extracted(RejectInPlace("", Doc([Elem(1, P, [], [Elem(2, Ins, [], [Run(3, "x"), Run(5, "y")])])]))) == "xy"
  {
    var x, y := Run(3, "x"), Run(5, "y");
    TwoTextsLeft(x, y);
    OneParagraphLeft(Elem(2, Ins, [], [x, y]), [], "xy");
    assert [Elem(2, Ins, [], [x, y])] + [] == [Elem(2, Ins, [], [x, y])];
  }

  lemma OneParagraphLeft(i: Node, rest: seq<Node>, text: string)
    requires i.Is(Ins) && i.attrs == [] && DropIns("", rest) == []
    requires TextOf(Splice("", DropIns("", i.kids), false, false)) == text != ""
    requires ParagraphTexts(Splice("", DropIns("", i.kids), false, false)) == []
    ensures Extracted(RejectInPlace("", Doc([Elem(1, P, [], [i] + rest)]))) == text
  {
    var p := Elem(1, P, [], [i] + rest);
    var i' := DropInsBelow("", i);
    assert ([i] + rest)[1..] == rest;
    assert DropIns("", p.kids) == [i'];
    var i'' := Visit("", i', false, false);
    SpliceOne(i');
    LeftOne(i'');
    OnlyParagraphLeft(p, [i'], [i''], text);
  }

  lemma SpliceOne(n: Node)
    requires !IsBy(n, Del, "")
    ensures Splice("", [n], false, false) == [Visit("", n, false, false)]
  {
    assert [n][1..] == [];
  }

  lemma OnlyParagraphLeft(p: Node, kept: seq<Node>, out: seq<Node>, text: string)
    requires p.Is(P) && kept == DropIns("", p.kids) && out == Splice("", kept, false, false)
    requires TextOf(out) == text != "" && ParagraphTexts(out) == []
    ensures Extracted(RejectInPlace("", Doc([p]))) == text
  {
    var p' := DropInsBelow("", p);
    assert DropIns("", [p]) == [p'] by {
      assert [p][1..] == [];
    }
    SpliceOne(p');
    LeftOne(Visit("", p', false, false));
    assert NonEmpty([text]) == [text] by {
      assert [text][1..] == [];
    }
  }

  // The author's name is the only thing in the way.
  lemma UnpackingKeepsRejectedText(author: string)
    ensures (forall root: Node :: root.Elem? ==>
               Extracted(RejectInPlace(author, Simplified(root))) == Extracted(RejectInPlace(author, root)))
            <==> author != ""
  {
    if author == "" {
      EmptyAuthorLosesText();
      assert AuthorlessDoc().Elem?;
    } else {
      forall root: Node | root.Elem?
        ensures Extracted(RejectInPlace(author, Simplified(root))) == Extracted(RejectInPlace(author, root))
      {
        SimplifyingKeepsOutline(root);
        SameRejectedText(author, NoFormats, Simplified(root), root);
      }
    }
  }

  // A run that is a direct child of a run makes the order of the containers matter.
  lemma NestedRunsNeedOrder()
    ensures var p := Elem(1, P, [], [Elem(2, R, [], [Run(3, "x")]), Elem(4, R, [], [Run(5, "y")])]);
            Rewrite(MergeRuns, {2}, Rewrite(MergeRuns, {1}, p)) != Rewrite(MergeRuns, {1}, Rewrite(MergeRuns, {2}, p))
  {
    var x, y := Run(3, "x"), Run(5, "y");
    var a, b := Elem(2, R, [], [x]), Elem(4, R, [], [y]);
    var p, ab := Elem(1, P, [], [a, b]), Elem(2, R, [], [x, y]);
    AloneUntouched(1, a);
    AloneUntouched(2, a);
    AloneUntouched(1, b);
    AloneUntouched(2, b);
    ListOfTwo({1}, a, b);
    ListOfTwo({2}, a, b);
    JoinedRuns(a, b, x, y);
    assert FuseRuns([a, b]) == [ab];
    assert Rewrite(MergeRuns, {2}, p) == p;
    assert Rewrite(MergeRuns, {1}, p) == p.(kids := [ab]);
    // with p first, container 2 then holds two runs, and they are merged
    TextOnly({2}, x);
    TextOnly({2}, y);
    ListOfTwo({2}, x, y);
    FuseTwo(Runs, x, y);
    assert |FuseRuns([x, y])| == 1 by {
      MergeTextsKeepsRuns(Fuse(Runs, [x, y]));
    }
    assert |Rewrite(MergeRuns, {2}, ab).kids| == 1;
    assert RewriteAll(MergeRuns, {2}, [ab]) == [Rewrite(MergeRuns, {2}, ab)] + RewriteAll(MergeRuns, {2}, [ab][1..]);
    assert Rewrite(MergeRuns, {2}, p.(kids := [ab])).kids[0] == Rewrite(MergeRuns, {2}, ab);
  }

  lemma ListOfTwo(ids: set<nat>, a: Node, b: Node)
    ensures RewriteAll(MergeRuns, ids, [a, b]) == [Rewrite(MergeRuns, ids, a), Rewrite(MergeRuns, ids, b)]
  {
    assert [a, b][1..] == [b];
    assert RewriteAll(MergeRuns, ids, [b]) == [Rewrite(MergeRuns, ids, b)] + RewriteAll(MergeRuns, ids, [b][1..]);
  }

  lemma TextOnly(ids: set<nat>, r: Node)
    requires r.Is(R) && |r.kids| == 1 && r.kids[0].TextElem?
    ensures Rewrite(MergeRuns, ids, r) == r
  {
    assert RewriteAll(MergeRuns, ids, r.kids) == [r.kids[0]] + RewriteAll(MergeRuns, ids, r.kids[1..]) == r.kids;
    FuseRunsOfNone(r.kids);
  }

  // A container with a single run of a single text has nothing to merge.
  lemma AloneUntouched(c: nat, n: Node)
    requires n.Is(R) && |n.kids| == 1 && n.kids[0].Is(R) && |n.kids[0].kids| == 1 && n.kids[0].kids[0].TextElem?
    ensures Rewrite(MergeRuns, {c}, n) == n
  {
    var r := n.kids[0];
    TextOnly({c}, r);
    assert RewriteAll(MergeRuns, {c}, n.kids) == [r] + RewriteAll(MergeRuns, {c}, n.kids[1..]) == n.kids;
    FuseOne(Runs, r);
    FuseOne(Texts, r.kids[0]);
    assert [r.kids[0]] == r.kids && [r] == n.kids;
    MergeTextsFixed([r]);
  }

  lemma JoinedRuns(a: Node, b: Node, x: Node, y: Node)
    requires a.Is(R) && b.Is(R) && a.kids == [x] && b.kids == [y] && x.Is(R) && y.Is(R)
    ensures FuseRuns([a, b]) == [a.(kids := [x, y])]
  {
    assert [x][1..] == [] && [y][1..] == [];
    assert Moved([y]) == [y];
    assert PropsOf([x]) == PropsOf([x][1..]) == None;
    assert PropsOf([y]) == PropsOf([y][1..]) == None;
    FuseTwo(Runs, a, b);
    var ab := a.(kids := [x, y]);
    assert [x] + [y] == [x, y];
    assert Fuse(Texts, [x, y]) == [x, y] by {
      FusePastOthers(Texts, [x, y], []);
      assert [x, y] + [] == [x, y];
    }
    assert MergeTextsAll([ab]) == [MergeTexts(ab)] + MergeTextsAll([ab][1..]);
  }
}
