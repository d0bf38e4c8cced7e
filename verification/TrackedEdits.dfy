/** The edits that the redlining validator means by "properly tracked": what one author may do
    to a document so that rejecting the author's changes gives the original text back. */
module TrackedEdits {
  import opened DocxTree
  import opened Options
  import opened Redlining

  // An edit of a child list by one author.
  datatype Edit =
    | Insert(at: nat, id: nat, attrs: Attributes, content: seq<Node>)
    | Rework(at: nat, content: seq<Node>)
    | SplitRun(at: nat, cut: nat, id: nat)
    | SplitText(at: nat, cut: nat, before: Option<string>, after: Option<string>)
    | Strike(from: nat, to: nat, id: nat, attrs: Attributes)
    | Inside(at: nat, inner: Edit)

  // The edit names places that the list has.
  predicate Applies(e: Edit, ns: seq<Node>) {
    match e
    case Insert(at, _, _, _) => at <= |ns|
    case Rework(at, _) => at < |ns| && ns[at].Elem?
    case SplitRun(at, cut, _) => at < |ns| && ns[at].Is(R) && cut <= |ns[at].kids|
    case SplitText(at, cut, _, _) => at < |ns| && ns[at].TextElem? && cut <= |ns[at].text|
    case Strike(from, to, _, _) => from <= to <= |ns|
    case Inside(at, inner) => at < |ns| && ns[at].Elem? && Applies(inner, ns[at].kids)
  }

  // `own` says that the list is inside a change of the author.
  predicate Legal(a: string, own: bool, e: Edit, ns: seq<Node>)
    requires Applies(e, ns)
    decreases e
  {
    match e
    // new content goes into an ins of the author
    case Insert(_, _, attrs, _) => Lookup(attrs, AUTHOR) == Some(a)
    // anything may happen inside an ins of the author
    case Rework(at, _) => IsBy(ns[at], Ins, a)
    case SplitRun(at, cut, _) => TextFree(Properties(ns[at].kids[..cut]))
    case SplitText(_, _, _, _) => true
    // siblings go into a del of the author if nobody else has struck text in them
    case Strike(from, to, _, attrs) => Lookup(attrs, AUTHOR) == Some(a) && (own || Foreign(a, ns[from..to]) == 0)
    case Inside(at, inner) => Legal(a, own || IsOwn(a, ns[at]), inner, ns[at].kids)
  }

  predicate IsOwn(a: string, n: Node) {
    IsBy(n, Ins, a) || IsBy(n, Del, a)
  }

  function Edited(e: Edit, ns: seq<Node>): seq<Node>
    requires Applies(e, ns)
  {
    match e
    case Insert(at, id, attrs, content) => ns[..at] + [Elem(id, Ins, attrs, content)] + ns[at..]
    case Rework(at, content) => ns[..at] + [ns[at].(kids := content)] + ns[at + 1..]
    case SplitRun(at, cut, id) =>
      var r := ns[at];
      ns[..at] + [r.(kids := r.kids[..cut]), Elem(id, R, r.attrs, Properties(r.kids[..cut]) + r.kids[cut..])]
      + ns[at + 1..]
    case SplitText(at, cut, before, after) =>
      var t := ns[at];
      ns[..at] + [TextElem(t.kind, t.text[..cut], before), TextElem(t.kind, t.text[cut..], after)] + ns[at + 1..]
    case Strike(from, to, id, attrs) => ns[..from] + [Elem(id, Del, attrs, StruckAll(ns[from..to]))] + ns[to..]
    case Inside(at, inner) => ns[..at] + [ns[at].(kids := Edited(inner, ns[at].kids))] + ns[at + 1..]
  }

  // The first property element, which a split run copies.
  function Properties(ns: seq<Node>): seq<Node> {
    if ns == [] then [] else if ns[0].Is(RPr) then [ns[0]] else Properties(ns[1..])
  }

  predicate TextFree(ns: seq<Node>) {
    ns == [] || (TextFreeNode(ns[0]) && TextFree(ns[1..]))
  }

  predicate TextFreeNode(n: Node) {
    match n
    case TextElem(_, text, _) => text == ""
    case Elem(_, tag, _, kids) => tag != P && TextFree(kids)
    case _ => true
  }

  function Struck(n: Node): Node {
    match n
    case TextElem(_, _, _) => n.(kind := DelText)
    case Elem(_, _, _, kids) => n.(kids := StruckAll(kids))
    case _ => n
  }

  function StruckAll(ns: seq<Node>): seq<Node> {
    if ns == [] then [] else [Struck(ns[0])] + StruckAll(ns[1..])
  }

  // How many struck characters are outside every change of the author.
  function Foreign(a: string, ns: seq<Node>): nat {
    if ns == [] then 0 else ForeignNode(a, ns[0]) + Foreign(a, ns[1..])
  }

  function ForeignNode(a: string, n: Node): nat {
    match n
    case TextElem(kind, text, _) => if kind == DelText then |text| else 0
    case Elem(_, _, _, kids) => if IsOwn(a, n) then 0 else Foreign(a, kids)
    case _ => 0
  }

  // ----- Striking text out and rejecting the change

  // m are the marks around the siblings before the edit, m' those around them after it.
  lemma {:induction false} StrikeAdds(a: string, ns: seq<Node>, m: seq<Mark>, m': seq<Mark>)
    requires Mark(Ins, Some(a)) !in m && Mark(Ins, Some(a)) !in m' && Mark(Del, Some(a)) in m'
    ensures var before, after := LeftIn(a, ViewAll(ns, m)), LeftIn(a, ViewAll(StruckAll(ns), m'));
            var foreign := if Mark(Del, Some(a)) in m then 0 else Foreign(a, ns);
            |after.text| == |before.text| + foreign && (foreign == 0 ==> after == before)
  {
    if ns != [] {
      StrikeAdds(a, ns[1..], m, m');
      StrikeAddsNode(a, ns[0], m, m');
      LeftInThen(a, ViewOf(ns[0], m), ViewAll(ns[1..], m));
      LeftInThen(a, ViewOf(Struck(ns[0]), m'), ViewAll(StruckAll(ns[1..]), m'));
      assert StruckAll(ns)[1..] == StruckAll(ns[1..]);
    }
  }

  lemma {:induction false} StrikeAddsNode(a: string, n: Node, m: seq<Mark>, m': seq<Mark>)
    requires Mark(Ins, Some(a)) !in m && Mark(Ins, Some(a)) !in m' && Mark(Del, Some(a)) in m'
    ensures var before, after := LeftIn(a, ViewOf(n, m)), LeftIn(a, ViewOf(Struck(n), m'));
            var foreign := if Mark(Del, Some(a)) in m then 0 else ForeignNode(a, n);
            |after.text| == |before.text| + foreign && (foreign == 0 ==> after == before)
  {
    match n
    case TextElem(kind, text, _) =>
      SurvivingGlyphs(a, kind, text, m);
      SurvivingGlyphs(a, DelText, text, m');
    case Elem(_, _, _, kids) =>
      MarksOf(a, n, m);
      MarksOf(a, Struck(n), m');
      var below, below' := MarksBelow(n, m), MarksBelow(Struck(n), m');
      if IsBy(n, Ins, a) {
        InsertionHides(a, n, m);
        InsertionHides(a, Struck(n), m');
      } else {
        StrikeAdds(a, kids, below, below');
        FramedLeft(a, n, m, ViewAll(kids, below));
        FramedLeft(a, Struck(n), m', ViewAll(StruckAll(kids), below'));
      }
    case _ =>
  }

  // The list is inside a change of the author.
  predicate Owned(a: string, m: seq<Mark>) {
    Mark(Ins, Some(a)) in m || Mark(Del, Some(a)) in m
  }

  // Wrapping siblings in a deletion keeps the rejected text if and only if they are inside a
  // change of the author anyway, or nobody else's struck text is among them.
  lemma StrikeExact(a: string, ns: seq<Node>, id: nat, attrs: Attributes, m: seq<Mark>)
    requires Lookup(attrs, AUTHOR) == Some(a)
    ensures LeftIn(a, ViewOf(Elem(id, Del, attrs, StruckAll(ns)), m)) == LeftIn(a, ViewAll(ns, m))
            <==> Owned(a, m) || Foreign(a, ns) == 0
  {
    var d := Elem(id, Del, attrs, StruckAll(ns));
    if Mark(Ins, Some(a)) in m {
      HiddenNode(a, d, m);
      HiddenInside(a, ns, m);
    } else {
      StrikeAdds(a, ns, m, MarksBelow(d, m));
      FrameUnseen(d, m, ViewAll(d.kids, MarksBelow(d, m)));
    }
  }

  // ----- The other edits

  // The same marks, as far as one author's changes are concerned.
  predicate SameFor(a: string, m: seq<Mark>, m': seq<Mark>) {
    (Mark(Ins, Some(a)) in m <==> Mark(Ins, Some(a)) in m') && (Mark(Del, Some(a)) in m <==> Mark(Del, Some(a)) in m')
  }

  // What is left does not depend on the runs around it.
  lemma {:induction false} LeftByMarks(a: string, ns: seq<Node>, m: seq<Mark>, m': seq<Mark>)
    requires SameFor(a, m, m')
    ensures LeftIn(a, ViewAll(ns, m)) == LeftIn(a, ViewAll(ns, m'))
  {
    if ns != [] {
      LeftByMarksOne(a, ns[0], m, m');
      LeftByMarks(a, ns[1..], m, m');
      LeftInThen(a, ViewOf(ns[0], m), ViewAll(ns[1..], m));
      LeftInThen(a, ViewOf(ns[0], m'), ViewAll(ns[1..], m'));
    }
  }

  lemma {:induction false} LeftByMarksOne(a: string, n: Node, m: seq<Mark>, m': seq<Mark>)
    requires SameFor(a, m, m')
    ensures LeftIn(a, ViewOf(n, m)) == LeftIn(a, ViewOf(n, m'))
  {
    match n
    case TextElem(kind, text, _) =>
      SurvivingGlyphs(a, kind, text, m);
      SurvivingGlyphs(a, kind, text, m');
    case Elem(_, _, _, kids) =>
      MarksOf(a, n, m);
      MarksOf(a, n, m');
      LeftByMarks(a, kids, MarksBelow(n, m), MarksBelow(n, m'));
      FramedLeft(a, n, m, ViewAll(kids, MarksBelow(n, m)));
      FramedLeft(a, n, m', ViewAll(kids, MarksBelow(n, m')));
    case _ =>
  }

  lemma {:induction false} TextFreeLeft(a: string, ns: seq<Node>, m: seq<Mark>)
    requires TextFree(ns)
    ensures LeftIn(a, ViewAll(ns, m)) == Left("", [])
  {
    if ns != [] {
      if ns[0].Elem? {
        TextFreeLeft(a, ns[0].kids, MarksBelow(ns[0], m));
        FramedLeft(a, ns[0], m, ViewAll(ns[0].kids, MarksBelow(ns[0], m)));
      }
      TextFreeLeft(a, ns[1..], m);
      LeftInThen(a, ViewOf(ns[0], m), ViewAll(ns[1..], m));
    }
  }

  // A run leaves what is in it.
  lemma RunLeaves(a: string, r: Node, m: seq<Mark>)
    requires r.Is(R)
    ensures LeftIn(a, ViewOf(r, m)) == LeftIn(a, ViewAll(r.kids, m))
  {
    MarksOf(a, r, m);
    LeftByMarks(a, r.kids, MarksBelow(r, m), m);
    FrameUnseen(r, m, ViewAll(r.kids, MarksBelow(r, m)));
  }

  lemma SplitRunLeft(a: string, r: Node, cut: nat, id: nat, m: seq<Mark>)
    requires r.Is(R) && cut <= |r.kids| && TextFree(Properties(r.kids[..cut]))
    ensures LeftIn(a, ViewAll([r.(kids := r.kids[..cut]), Elem(id, R, r.attrs, Properties(r.kids[..cut]) + r.kids[cut..])], m))
            == LeftIn(a, ViewOf(r, m))
  {
    var before, after := r.kids[..cut], r.kids[cut..];
    var q, s := r.(kids := before), Elem(id, R, r.attrs, Properties(before) + after);
    ViewTwo(q, s, m);
    LeftInThen(a, ViewOf(q, m), ViewOf(s, m));
    RunLeaves(a, q, m);
    RunLeaves(a, s, m);
    RunLeaves(a, r, m);
    HalvesLeft(a, before, after, Properties(before), m);
    assert r.kids == before + after;
  }

  lemma HalvesLeft(a: string, before: seq<Node>, after: seq<Node>, props: seq<Node>, m: seq<Mark>)
    requires TextFree(props)
    ensures LeftIn(a, ViewAll(before, m)).Then(LeftIn(a, ViewAll(props + after, m))) == LeftIn(a, ViewAll(before + after, m))
  {
    TextFreeLeft(a, props, m);
    LeftOfTwo(a, props, after, m);
    NothingThen(LeftIn(a, ViewAll(after, m)));
    LeftOfTwo(a, before, after, m);
  }

  lemma LeftOfTwo(a: string, x: seq<Node>, y: seq<Node>, m: seq<Mark>)
    ensures LeftIn(a, ViewAll(x + y, m)) == LeftIn(a, ViewAll(x, m)).Then(LeftIn(a, ViewAll(y, m)))
  {
    ViewAppend(x, y, m);
    LeftInThen(a, ViewAll(x, m), ViewAll(y, m));
  }

  lemma NothingThen(l: Left)
    ensures Left("", []).Then(l) == l
  {
  }

  lemma ViewTwo(q: Node, s: Node, m: seq<Mark>)
    ensures ViewAll([q, s], m) == ViewOf(q, m).Then(ViewOf(s, m))
  {
    ViewAppend([q], [s], m);
    ViewOne(q, m);
    ViewOne(s, m);
    assert [q, s] == [q] + [s];
  }

  lemma SplitTextView(t: Node, cut: nat, before: Option<string>, after: Option<string>, m: seq<Mark>)
    requires t.TextElem? && cut <= |t.text|
    ensures ViewAll([TextElem(t.kind, t.text[..cut], before), TextElem(t.kind, t.text[cut..], after)], m) == ViewOf(t, m)
  {
    var q, s := TextElem(t.kind, t.text[..cut], before), TextElem(t.kind, t.text[cut..], after);
    ViewTwo(q, s, m);
    assert t.text == t.text[..cut] + t.text[cut..];
  }

  // Replacing a stretch of a child list by one that leaves the same.
  lemma LeftReplaced(a: string, pre: seq<Node>, x: seq<Node>, y: seq<Node>, post: seq<Node>, m: seq<Mark>)
    requires LeftIn(a, ViewAll(x, m)) == LeftIn(a, ViewAll(y, m))
    ensures LeftIn(a, ViewAll(pre + x + post, m)) == LeftIn(a, ViewAll(pre + y + post, m))
  {
    LeftThree(a, pre, x, post, m);
    LeftThree(a, pre, y, post, m);
  }

  lemma LeftThree(a: string, x: seq<Node>, y: seq<Node>, z: seq<Node>, m: seq<Mark>)
    ensures LeftIn(a, ViewAll(x + y + z, m)) ==
            LeftIn(a, ViewAll(x, m)).Then(LeftIn(a, ViewAll(y, m))).Then(LeftIn(a, ViewAll(z, m)))
  {
    LeftOfTwo(a, x + y, z, m);
    LeftOfTwo(a, x, y, m);
  }

  // No legal edit changes what is left when the author's changes are rejected.
  lemma {:induction false} EditKeeps(a: string, own: bool, e: Edit, ns: seq<Node>, m: seq<Mark>)
    requires Applies(e, ns) && Legal(a, own, e, ns) && (own ==> Owned(a, m))
    ensures LeftIn(a, ViewAll(Edited(e, ns), m)) == LeftIn(a, ViewAll(ns, m))
    decreases e, 0
  {
    match e
    case Insert(at, id, attrs, content) => InsertKeeps(a, ns, at, Elem(id, Ins, attrs, content), m);
    case Rework(at, content) => ReworkKeeps(a, ns, at, content, m);
    case SplitRun(at, cut, id) =>
      SplitRunKeeps(a, ns, at, cut, id, m);
    case SplitText(at, cut, before, after) =>
      SplitTextKeeps(a, ns, at, cut, before, after, m);
    case Strike(from, to, id, attrs) =>
      ThreeParts(ns, from, to);
      StrikeKeepsAt(a, ns[..from], ns[from..to], ns[to..], id, attrs, m);
    case Inside(at, inner) =>
      var n := ns[at].(kids := Edited(inner, ns[at].kids));
      InsideKeeps(a, own, ns[at], inner, m);
      ViewOne(n, m);
      ReplaceOne(a, ns, at, [n], m);
  }

  lemma SplitRunKeeps(a: string, ns: seq<Node>, at: nat, cut: nat, id: nat, m: seq<Mark>)
    requires at < |ns| && ns[at].Is(R) && cut <= |ns[at].kids| && TextFree(Properties(ns[at].kids[..cut]))
    ensures LeftIn(a, ViewAll(Edited(SplitRun(at, cut, id), ns), m)) == LeftIn(a, ViewAll(ns, m))
  {
    var r := ns[at];
    SplitRunLeft(a, r, cut, id, m);
    ReplaceOne(a, ns, at, [r.(kids := r.kids[..cut]), Elem(id, R, r.attrs, Properties(r.kids[..cut]) + r.kids[cut..])], m);
  }

  lemma SplitTextKeeps(a: string, ns: seq<Node>, at: nat, cut: nat, before: Option<string>, after: Option<string>, m: seq<Mark>)
    requires at < |ns| && ns[at].TextElem? && cut <= |ns[at].text|
    ensures LeftIn(a, ViewAll(Edited(SplitText(at, cut, before, after), ns), m)) == LeftIn(a, ViewAll(ns, m))
  {
    var t := ns[at];
    SplitTextView(t, cut, before, after, m);
    ReplaceOne(a, ns, at, [TextElem(t.kind, t.text[..cut], before), TextElem(t.kind, t.text[cut..], after)], m);
  }

  lemma InsertKeeps(a: string, ns: seq<Node>, at: nat, i: Node, m: seq<Mark>)
    requires at <= |ns| && IsBy(i, Ins, a)
    ensures LeftIn(a, ViewAll(ns[..at] + [i] + ns[at..], m)) == LeftIn(a, ViewAll(ns, m))
  {
    InsertionHides(a, i, m);
    ViewOne(i, m);
    assert ns == ns[..at] + [] + ns[at..];
    LeftReplaced(a, ns[..at], [i], [], ns[at..], m);
  }

  lemma ReworkKeeps(a: string, ns: seq<Node>, at: nat, content: seq<Node>, m: seq<Mark>)
    requires at < |ns| && IsBy(ns[at], Ins, a)
    ensures LeftIn(a, ViewAll(ns[..at] + [ns[at].(kids := content)] + ns[at + 1..], m)) == LeftIn(a, ViewAll(ns, m))
  {
    var i := ns[at].(kids := content);
    InsertionHides(a, i, m);
    InsertionHides(a, ns[at], m);
    ViewOne(i, m);
    ReplaceOne(a, ns, at, [i], m);
  }

  lemma StrikeKeepsAt(a: string, pre: seq<Node>, s: seq<Node>, post: seq<Node>, id: nat, attrs: Attributes, m: seq<Mark>)
    requires Lookup(attrs, AUTHOR) == Some(a) && (Owned(a, m) || Foreign(a, s) == 0)
    ensures LeftIn(a, ViewAll(pre + [Elem(id, Del, attrs, StruckAll(s))] + post, m)) == LeftIn(a, ViewAll(pre + s + post, m))
  {
    StrikeExact(a, s, id, attrs, m);
    ViewOne(Elem(id, Del, attrs, StruckAll(s)), m);
    LeftReplaced(a, pre, [Elem(id, Del, attrs, StruckAll(s))], s, post, m);
  }

  lemma ThreeParts(ns: seq<Node>, from: nat, to: nat)
    requires from <= to <= |ns|
    ensures ns == ns[..from] + ns[from..to] + ns[to..]
  {
  }

  lemma ReplaceOne(a: string, ns: seq<Node>, at: nat, x: seq<Node>, m: seq<Mark>)
    requires at < |ns| && LeftIn(a, ViewAll(x, m)) == LeftIn(a, ViewOf(ns[at], m))
    ensures LeftIn(a, ViewAll(ns[..at] + x + ns[at + 1..], m)) == LeftIn(a, ViewAll(ns, m))
  {
    ViewOne(ns[at], m);
    assert ns == ns[..at] + [ns[at]] + ns[at + 1..];
    LeftReplaced(a, ns[..at], x, [ns[at]], ns[at + 1..], m);
  }

  lemma {:induction false} InsideKeeps(a: string, own: bool, n: Node, inner: Edit, m: seq<Mark>)
    requires n.Elem? && Applies(inner, n.kids) && Legal(a, own || IsOwn(a, n), inner, n.kids)
    requires own ==> Owned(a, m)
    ensures LeftIn(a, ViewOf(n.(kids := Edited(inner, n.kids)), m)) == LeftIn(a, ViewOf(n, m))
    decreases inner, 1
  {
    var n' := n.(kids := Edited(inner, n.kids));
    var below, below' := MarksBelow(n, m), MarksBelow(n', m);
    MarksOf(a, n, m);
    MarksOf(a, n', m);
    EditKeeps(a, own || IsOwn(a, n), inner, n.kids, below);
    LeftByMarks(a, n'.kids, below, below');
    FramedLeft(a, n, m, ViewAll(n.kids, below));
    FramedLeft(a, n', m, ViewAll(n'.kids, below'));
  }

  // ----- Any number of edits, and the validator

  predicate AllLegal(a: string, es: seq<Edit>, ns: seq<Node>) {
    es == [] ||
    (Applies(es[0], ns) && Legal(a, false, es[0], ns) && AllLegal(a, es[1..], Edited(es[0], ns)))
  }

  function EditedAll(a: string, es: seq<Edit>, ns: seq<Node>): seq<Node>
    requires AllLegal(a, es, ns)
  {
    if es == [] then ns else EditedAll(a, es[1..], Edited(es[0], ns))
  }

  lemma {:induction false} EditsKeep(a: string, es: seq<Edit>, ns: seq<Node>, m: seq<Mark>)
    requires AllLegal(a, es, ns)
    ensures LeftIn(a, ViewAll(EditedAll(a, es, ns), m)) == LeftIn(a, ViewAll(ns, m))
  {
    if es != [] {
      EditKeeps(a, false, es[0], ns, m);
      EditsKeep(a, es[1..], Edited(es[0], ns), m);
    }
  }

  predicate HasChangeBy(a: string, ns: seq<Node>) {
    ns != [] &&
    (IsOwn(a, ns[0]) || (ns[0].Elem? && HasChangeBy(a, ns[0].kids)) || HasChangeBy(a, ns[1..]))
  }

  // RedliningValidator.validate on two documents that could be read.
  predicate Accepts(a: string, original: Node, modified: Node)
    requires original.Elem? && modified.Elem?
  {
    !HasChangeBy(a, modified.kids) || Extracted(RejectInPlace(a, modified)) == Extracted(RejectInPlace(a, original))
  }

  // A document edited in a properly tracked way has the original's text once the author's
  // changes are rejected, so the validator accepts it.
  lemma TrackedEditsAccepted(a: string, es: seq<Edit>, original: Node)
    requires original.Elem? && AllLegal(a, es, original.kids)
    ensures var modified := original.(kids := EditedAll(a, es, original.kids));
            && Extracted(RejectInPlace(a, modified)) == Extracted(RejectInPlace(a, original))
            && Accepts(a, original, modified)
  {
    EditsKeep(a, es, original.kids, []);
    RejectedText(a, original);
    RejectedText(a, original.(kids := EditedAll(a, es, original.kids)));
  }
}
