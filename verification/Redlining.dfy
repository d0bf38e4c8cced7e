/** Rejecting one author's tracked changes, as the redlining validator does before it compares
    two documents, and what the text that is left says about the document. */
module Redlining {
  import opened DocxTree
  import opened Options
  import opened Strings

  predicate IsBy(n: Node, tag: Tag, author: string) {
    n.Is(tag) && Author(n) == Some(author)
  }

  // ----- Pure forms of the two in-place walks

  function DropIns(a: string, ns: seq<Node>): seq<Node> {
    if ns == [] then []
    else (if IsBy(ns[0], Ins, a) then [] else [DropInsBelow(a, ns[0])]) + DropIns(a, ns[1..])
  }

  function DropInsBelow(a: string, n: Node): Node {
    if n.Elem? then n.(kids := DropIns(a, n.kids)) else n
  }

  function Restore(n: Node): Node {
    match n
    case TextElem(_, _, _) => n.(kind := T)
    case Elem(_, _, _, kids) => n.(kids := RestoreAll(kids))
    case _ => n
  }

  function RestoreAll(ns: seq<Node>): seq<Node> {
    if ns == [] then [] else [Restore(ns[0])] + RestoreAll(ns[1..])
  }

  // Replaces each of the author's deletions in a child list by its children. The walk that
  // mutates the tree looks at those children as parents, but not again as children of the list
  // they were put in: that is deep == false. `restore` says that delText is read as t.
  function Splice(a: string, ns: seq<Node>, restore: bool, deep: bool): seq<Node>
    decreases ns, 0
  {
    if ns == [] then [] else Piece(a, ns[0], restore, deep) + Splice(a, ns[1..], restore, deep)
  }

  function Piece(a: string, n: Node, restore: bool, deep: bool): seq<Node>
    decreases n, 1
  {
    if IsBy(n, Del, a) then
      if deep then Splice(a, n.kids, true, deep) else VisitAll(a, n.kids, true, deep)
    else [Visit(a, n, restore, deep)]
  }

  function Visit(a: string, n: Node, restore: bool, deep: bool): Node
    decreases n, 0
  {
    match n
    case TextElem(_, _, _) => if restore then n.(kind := T) else n
    case Elem(_, _, _, kids) => n.(kids := Splice(a, kids, restore, deep))
    case _ => n
  }

  function VisitAll(a: string, ns: seq<Node>, restore: bool, deep: bool): seq<Node>
    decreases ns, 0
  {
    if ns == [] then [] else [Visit(a, ns[0], restore, deep)] + VisitAll(a, ns[1..], restore, deep)
  }

  // _remove_author_tracked_changes
  function RejectInPlace(a: string, root: Node): Node
    requires root.Elem?
  {
    root.(kids := Splice(a, DropIns(a, root.kids), false, false))
  }

  // "Drop the author's insertions; replace the author's deletions by what they deleted."
  function Reject(a: string, root: Node): Node
    requires root.Elem?
  {
    root.(kids := Splice(a, DropIns(a, root.kids), false, true))
  }

  // ----- Text extraction

  function TextIn(n: Node): string {
    match n
    case TextElem(kind, text, _) => if kind == T then text else ""
    case Elem(_, _, _, kids) => TextOf(kids)
    case _ => ""
  }

  function TextOf(ns: seq<Node>): string {
    if ns == [] then "" else TextIn(ns[0]) + TextOf(ns[1..])
  }

  function ParagraphsIn(n: Node): seq<string> {
    if !n.Elem? then []
    else (if n.tag == P then [TextOf(n.kids)] else []) + ParagraphTexts(n.kids)
  }

  function ParagraphTexts(ns: seq<Node>): seq<string> {
    if ns == [] then [] else ParagraphsIn(ns[0]) + ParagraphTexts(ns[1..])
  }

  function NonEmpty(ss: seq<string>): seq<string> {
    if ss == [] then [] else (if ss[0] == "" then [] else [ss[0]]) + NonEmpty(ss[1..])
  }

  // _extract_text_content
  function Extracted(root: Node): string
    requires root.Elem?
  {
    JoinLines(NonEmpty(ParagraphTexts(root.kids)))
  }

  // ----- What rejecting leaves, told from the document itself

  // A character survives unless the author inserted it; struck text survives when it is the
  // author who struck it.
  predicate Survives(a: string, g: Glyph) {
    g.Glyph? && Mark(Ins, Some(a)) !in g.marks && (g.kind == T || Mark(Del, Some(a)) in g.marks)
  }

  function Surviving(a: string, gs: seq<Glyph>): string {
    if gs == [] then "" else (if Survives(a, gs[0]) then [gs[0].ch] else "") + Surviving(a, gs[1..])
  }

  function SurvivingPars(a: string, ps: seq<Par>): seq<string> {
    if ps == [] then []
    else (if Mark(Ins, Some(a)) in ps[0].marks then [] else [Surviving(a, ps[0].glyphs)]) + SurvivingPars(a, ps[1..])
  }

  ghost function Verdict(a: string, root: Node): string
    requires root.Elem?
  {
    JoinLines(NonEmpty(SurvivingPars(a, Outline(root).pars)))
  }

  lemma {:induction false} SurvivingAppend(a: string, g: seq<Glyph>, h: seq<Glyph>)
    ensures Surviving(a, g + h) == Surviving(a, g) + Surviving(a, h)
  {
    if g == [] {
      assert g + h == h;
    } else {
      var first := if Survives(a, g[0]) then [g[0].ch] else "";
      assert (g + h)[1..] == g[1..] + h;
      SurvivingAppend(a, g[1..], h);
      assert first + (Surviving(a, g[1..]) + Surviving(a, h)) == first + Surviving(a, g[1..]) + Surviving(a, h);
    }
  }

  lemma {:induction false} SurvivingParsAppend(a: string, p: seq<Par>, q: seq<Par>)
    ensures SurvivingPars(a, p + q) == SurvivingPars(a, p) + SurvivingPars(a, q)
  {
    if p == [] {
      assert p + q == q;
    } else {
      assert (p + q)[1..] == p[1..] + q;
      SurvivingParsAppend(a, p[1..], q);
    }
  }

  lemma {:induction false} SurvivingGlyphs(a: string, kind: TextKind, s: string, marks: seq<Mark>)
    ensures Surviving(a, Glyphs(kind, s, marks)) == if s != "" && Survives(a, Glyph(s[0], kind, marks)) then s else ""
  {
    if s != "" {
      var g := Glyphs(kind, s, marks);
      assert g[1..] == Glyphs(kind, s[1..], marks);
      SurvivingGlyphs(a, kind, s[1..], marks);
      assert [s[0]] + s[1..] == s;
    }
  }

  // Text and paragraphs of a child list as the two walks and the extraction see them.
  datatype Left = Left(text: string, pars: seq<string>) {
    function Then(l: Left): Left {
      Left(text + l.text, pars + l.pars)
    }
  }

  function LeftOf(ns: seq<Node>): Left {
    Left(TextOf(ns), ParagraphTexts(ns))
  }

  ghost function LeftIn(a: string, v: View): Left {
    Left(Surviving(a, v.glyphs), SurvivingPars(a, v.pars))
  }

  lemma LeftInThen(a: string, u: View, v: View)
    ensures LeftIn(a, u.Then(v)) == LeftIn(a, u).Then(LeftIn(a, v))
  {
    SurvivingAppend(a, u.glyphs, v.glyphs);
    SurvivingParsAppend(a, u.pars, v.pars);
  }

  lemma {:induction false} LeftAppend(x: seq<Node>, y: seq<Node>)
    ensures LeftOf(x + y) == LeftOf(x).Then(LeftOf(y))
  {
    if x == [] {
      assert x + y == y;
    } else {
      assert (x + y)[1..] == x[1..] + y;
      LeftAppend(x[1..], y);
    }
  }

  lemma LeftOne(n: Node)
    ensures LeftOf([n]) == Left(TextIn(n), ParagraphsIn(n))
  {
    assert TextOf([n]) == TextIn(n) + TextOf([n][1..]) == TextIn(n);
    assert ParagraphTexts([n]) == ParagraphsIn(n) + ParagraphTexts([n][1..]) == ParagraphsIn(n);
  }

  // What a frame leaves around what it holds.
  lemma FramedLeft(a: string, n: Node, m: seq<Mark>, inner: View)
    requires n.Elem?
    ensures LeftIn(a, Framed(n, m, inner)) ==
            LeftIn(a, inner).(pars := (if n.tag == P && Mark(Ins, Some(a)) !in MarksBelow(n, m)
                                       then [Surviving(a, inner.glyphs)] else []) + SurvivingPars(a, inner.pars))
  {
    var par := if n.tag == P then [Par(MarksBelow(n, m), inner.glyphs)] else [];
    assert par != [] ==> par[1..] == [];
    SurvivingParsAppend(a, par, inner.pars);
    FrameHasNoText(a, n, m);
    SurvivingAppend(a, Start(n, m), inner.glyphs);
    SurvivingAppend(a, Start(n, m) + inner.glyphs, End(n, m));
    assert Framed(n, m, inner).pars == par + inner.pars;
    assert Surviving(a, Framed(n, m, inner).glyphs) == "" + Surviving(a, inner.glyphs) + "";
  }

  lemma FrameHasNoText(a: string, n: Node, m: seq<Mark>)
    requires n.Elem?
    ensures Surviving(a, Start(n, m)) == "" == Surviving(a, End(n, m))
  {
    if Shows(n, m) {
      assert Start(n, m)[1..] == [] && End(n, m)[1..] == [];
    }
  }

  // Inside the author's insertion nothing survives.
  lemma {:induction false} HiddenInside(a: string, ns: seq<Node>, marks: seq<Mark>)
    requires Mark(Ins, Some(a)) in marks
    ensures LeftIn(a, ViewAll(ns, marks)) == Left("", [])
  {
    if ns != [] {
      HiddenNode(a, ns[0], marks);
      HiddenInside(a, ns[1..], marks);
      LeftInThen(a, ViewOf(ns[0], marks), ViewAll(ns[1..], marks));
    }
  }

  lemma {:induction false} HiddenNode(a: string, n: Node, marks: seq<Mark>)
    requires Mark(Ins, Some(a)) in marks
    ensures LeftIn(a, ViewOf(n, marks)) == Left("", [])
  {
    match n
    case TextElem(kind, text, _) =>
      SurvivingGlyphs(a, kind, text, marks);
    case Elem(_, _, _, kids) =>
      HiddenInside(a, kids, MarksBelow(n, marks));
      MarksOf(a, n, marks);
      FramedLeft(a, n, marks, ViewAll(kids, MarksBelow(n, marks)));
    case _ =>
  }

  // The marks below an element, as far as one author is concerned.
  lemma MarksOf(a: string, n: Node, marks: seq<Mark>)
    requires n.Elem?
    ensures Mark(Ins, Some(a)) in MarksBelow(n, marks) <==> Mark(Ins, Some(a)) in marks || IsBy(n, Ins, a)
    ensures Mark(Del, Some(a)) in MarksBelow(n, marks) <==> Mark(Del, Some(a)) in marks || IsBy(n, Del, a)
  {
  }

  lemma {:induction false} SpliceLeft(a: string, ns: seq<Node>, marks: seq<Mark>, deep: bool)
    requires Mark(Ins, Some(a)) !in marks
    ensures LeftOf(Splice(a, DropIns(a, ns), Mark(Del, Some(a)) in marks, deep)) == LeftIn(a, ViewAll(ns, marks))
    decreases ns, 0
  {
    if ns != [] {
      var r := Mark(Del, Some(a)) in marks;
      SpliceLeft(a, ns[1..], marks, deep);
      LeftInThen(a, ViewOf(ns[0], marks), ViewAll(ns[1..], marks));
      if IsBy(ns[0], Ins, a) {
        InsertionLeft(a, ns, marks);
      } else {
        var n, rest := DropInsBelow(a, ns[0]), DropIns(a, ns[1..]);
        assert DropIns(a, ns)[1..] == rest;
        PieceLeft(a, ns[0], marks, deep);
        LeftAppend(Piece(a, n, r, deep), Splice(a, rest, r, deep));
      }
    }
  }

  lemma InsertionLeft(a: string, ns: seq<Node>, marks: seq<Mark>)
    requires ns != [] && IsBy(ns[0], Ins, a)
    ensures DropIns(a, ns) == DropIns(a, ns[1..])
    ensures LeftIn(a, ViewOf(ns[0], marks)) == Left("", [])
  {
    InsertionHides(a, ns[0], marks);
  }

  lemma InsertionHides(a: string, i: Node, marks: seq<Mark>)
    requires IsBy(i, Ins, a)
    ensures LeftIn(a, ViewOf(i, marks)) == Left("", [])
  {
    var below := MarksBelow(i, marks);
    HiddenInside(a, i.kids, below);
    FrameUnseen(i, marks, ViewAll(i.kids, below));
  }

  lemma {:induction false} PieceLeft(a: string, n: Node, marks: seq<Mark>, deep: bool)
    requires Mark(Ins, Some(a)) !in marks && !IsBy(n, Ins, a)
    ensures LeftOf(Piece(a, DropInsBelow(a, n), Mark(Del, Some(a)) in marks, deep)) == LeftIn(a, ViewOf(n, marks))
    decreases n, 1
  {
    if IsBy(n, Del, a) {
      SpliceLeft(a, n.kids, MarksBelow(n, marks), deep);
      VisitLeft(a, n.kids, MarksBelow(n, marks), deep);
      FrameUnseen(n, marks, ViewAll(n.kids, MarksBelow(n, marks)));
    } else {
      NodeLeft(a, n, marks, deep);
    }
  }

  lemma {:induction false} NodeLeft(a: string, n: Node, marks: seq<Mark>, deep: bool)
    requires Mark(Ins, Some(a)) !in marks && !IsBy(n, Ins, a)
    requires IsBy(n, Del, a) ==> Mark(Del, Some(a)) in marks
    ensures LeftOf([Visit(a, DropInsBelow(a, n), Mark(Del, Some(a)) in marks, deep)]) == LeftIn(a, ViewOf(n, marks))
    decreases n, 0
  {
    LeftOne(Visit(a, DropInsBelow(a, n), Mark(Del, Some(a)) in marks, deep));
    match n
    case TextElem(kind, text, _) =>
      SurvivingGlyphs(a, kind, text, marks);
    case Elem(_, _, _, kids) =>
      var below := MarksBelow(n, marks);
      MarksOf(a, n, marks);
      SpliceLeft(a, kids, below, deep);
      FramedLeft(a, n, marks, ViewAll(kids, below));
    case _ =>
  }

  lemma {:induction false} VisitLeft(a: string, ns: seq<Node>, marks: seq<Mark>, deep: bool)
    requires Mark(Ins, Some(a)) !in marks && Mark(Del, Some(a)) in marks
    ensures LeftOf(VisitAll(a, DropIns(a, ns), true, deep)) == LeftIn(a, ViewAll(ns, marks))
    decreases ns, 0
  {
    if ns != [] {
      VisitLeft(a, ns[1..], marks, deep);
      LeftInThen(a, ViewOf(ns[0], marks), ViewAll(ns[1..], marks));
      if IsBy(ns[0], Ins, a) {
        InsertionLeft(a, ns, marks);
      } else {
        var n, rest := DropInsBelow(a, ns[0]), DropIns(a, ns[1..]);
        assert DropIns(a, ns)[1..] == rest;
        NodeLeft(a, ns[0], marks, deep);
        LeftAppend([Visit(a, n, true, deep)], VisitAll(a, rest, true, deep));
      }
    }
  }

  // The text left after rejecting is the surviving text, whichever of the two forms rejects it.
  lemma RejectedText(a: string, root: Node)
    requires root.Elem?
    ensures Extracted(RejectInPlace(a, root)) == Verdict(a, root) == Extracted(Reject(a, root))
  {
    SpliceLeft(a, root.kids, [], false);
    SpliceLeft(a, root.kids, [], true);
  }

  // ----- When the in-place walk computes the pure recursion

  // A deletion of the author sits directly inside another one, insertions of the author apart.
  predicate Nested(a: string, n: Node) {
    n.Elem? && NestedIn(a, n.kids, IsBy(n, Del, a))
  }

  predicate NestedIn(a: string, ns: seq<Node>, inDel: bool) {
    ns != [] &&
    ((!IsBy(ns[0], Ins, a) && ((inDel && IsBy(ns[0], Del, a)) || Nested(a, ns[0]))) || NestedIn(a, ns[1..], inDel))
  }

  predicate HasDel(a: string, ns: seq<Node>) {
    ns != [] && (IsBy(ns[0], Del, a) || (ns[0].Elem? && HasDel(a, ns[0].kids)) || HasDel(a, ns[1..]))
  }

  lemma {:induction false} HasDelAppend(a: string, x: seq<Node>, y: seq<Node>)
    ensures HasDel(a, x + y) <==> HasDel(a, x) || HasDel(a, y)
  {
    if x == [] {
      assert x + y == y;
    } else {
      assert (x + y)[1..] == x[1..] + y;
      HasDelAppend(a, x[1..], y);
    }
  }

  lemma HasDelOne(a: string, n: Node)
    ensures HasDel(a, [n]) <==> IsBy(n, Del, a) || (n.Elem? && HasDel(a, n.kids))
  {
    assert !HasDel(a, [n][1..]);
  }

  lemma {:induction false} DeepLeavesNoDel(a: string, ns: seq<Node>, r: bool)
    ensures !HasDel(a, Splice(a, ns, r, true))
  {
    if ns != [] {
      DeepLeavesNoDel(a, ns[1..], r);
      if ns[0].Elem? {
        DeepLeavesNoDel(a, ns[0].kids, r);
        DeepLeavesNoDel(a, ns[0].kids, true);
      }
      HasDelOne(a, Visit(a, ns[0], r, true));
      HasDelAppend(a, Piece(a, ns[0], r, true), Splice(a, ns[1..], r, true));
    }
  }

  // `inDel` tells whether ns is the child list of one of the author's deletions.
  function Walked(a: string, ns: seq<Node>, r: bool, inDel: bool): seq<Node> {
    if inDel then VisitAll(a, DropIns(a, ns), r, false) else Splice(a, DropIns(a, ns), r, false)
  }

  lemma {:induction false} WalkLeavesNested(a: string, ns: seq<Node>, r: bool, inDel: bool)
    ensures HasDel(a, Walked(a, ns, r, inDel)) <==> NestedIn(a, ns, inDel)
    decreases ns
  {
    if ns != [] {
      WalkLeavesNested(a, ns[1..], r, inDel);
      if IsBy(ns[0], Ins, a) {
        assert DropIns(a, ns) == DropIns(a, ns[1..]);
      } else {
        var n, rest := DropInsBelow(a, ns[0]), DropIns(a, ns[1..]);
        assert DropIns(a, ns)[1..] == rest;
        if ns[0].Elem? {
          WalkLeavesNested(a, ns[0].kids, r, false);
          WalkLeavesNested(a, ns[0].kids, true, true);
        }
        HasDelOne(a, Visit(a, n, r, false));
        var h := if inDel then [Visit(a, n, r, false)] else Piece(a, n, r, false);
        assert Walked(a, ns, r, inDel) == h + Walked(a, ns[1..], r, inDel);
        HasDelAppend(a, h, Walked(a, ns[1..], r, inDel));
      }
    }
  }

  lemma {:induction false} WalkIsDeep(a: string, ns: seq<Node>, r: bool, inDel: bool)
    requires !NestedIn(a, ns, inDel)
    ensures Walked(a, ns, r, inDel) == Splice(a, DropIns(a, ns), r, true)
    decreases ns
  {
    if ns != [] {
      WalkIsDeep(a, ns[1..], r, inDel);
      if IsBy(ns[0], Ins, a) {
        assert DropIns(a, ns) == DropIns(a, ns[1..]);
      } else {
        var n, rest := DropInsBelow(a, ns[0]), DropIns(a, ns[1..]);
        assert DropIns(a, ns)[1..] == rest;
        if ns[0].Elem? {
          WalkIsDeep(a, ns[0].kids, if IsBy(ns[0], Del, a) then true else r, IsBy(ns[0], Del, a));
        }
        assert IsBy(n, Del, a) == IsBy(ns[0], Del, a);
        assert Visit(a, n, r, false) == Visit(a, n, r, true) || IsBy(n, Del, a);
        var h := if inDel then [Visit(a, n, r, false)] else Piece(a, n, r, false);
        assert h == Piece(a, n, r, true);
        assert Walked(a, ns, r, inDel) == h + Walked(a, ns[1..], r, inDel);
      }
    }
  }

  // The walk that mutates the tree computes the pure recursion exactly when no deletion of the
  // author sits directly inside another one.
  lemma InPlaceIsPure(a: string, root: Node)
    requires root.Elem?
    ensures RejectInPlace(a, root) == Reject(a, root) <==> !NestedIn(a, root.kids, false)
  {
    if NestedIn(a, root.kids, false) {
      WalkLeavesNested(a, root.kids, false, false);
      DeepLeavesNoDel(a, DropIns(a, root.kids), false);
    } else {
      WalkIsDeep(a, root.kids, false, false);
    }
  }

  // A deletion directly in a deletion of the same author: the walk leaves the inner one behind.
  function NestedDoc(): Node {
    var attrs := [(AUTHOR, "A")];
    Elem(0, Other("document"), [], [Elem(1, Del, attrs, [Elem(2, Del, attrs, [TextElem(DelText, "x", None)])])])
  }

  lemma NestedDeletionStays()
    ensures Nested("A", NestedDoc()) && RejectInPlace("A", NestedDoc()) != Reject("A", NestedDoc())
  {
    assert NestedIn("A", NestedDoc().kids, false);
    InPlaceIsPure("A", NestedDoc());
  }
}
