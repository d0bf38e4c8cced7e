/** The part of a WordprocessingML document tree that the tracked-change helpers look at.

    An element carries an `id` that stands for the identity of the DOM object: it is what a
    helper holds on to when it remembers an element and changes it later. Serialisation never
    shows it (see `Xml`). A `t` or `delText` element holds one text, so it is a leaf here. */
module DocxTree {
  import opened Options
  import opened Sequences

  datatype Tag = P | Tc | R | RPr | Ins | Del | ProofErr | Other(name: string)

  datatype TextKind = T | DelText

  type Attributes = seq<(string, string)>

  datatype Node =
    | Chars(data: string)
    | Comment(data: string)
    | TextElem(kind: TextKind, text: string, space: Option<string>)
    | Elem(id: nat, tag: Tag, attrs: Attributes, kids: seq<Node>)
  {
    predicate IsElement() {
      TextElem? || Elem?
    }

    predicate Is(t: Tag) {
      Elem? && tag == t
    }
  }

  const AUTHOR := "w:author"

  function Lookup(attrs: Attributes, name: string): Option<string> {
    if attrs == [] then None
    else if attrs[0].0 == name then Some(attrs[0].1)
    else Lookup(attrs[1..], name)
  }

  // The author attribute as ElementTree reads it: absent and empty differ.
  function Author(n: Node): Option<string>
    requires n.Elem?
  {
    Lookup(n.attrs, AUTHOR)
  }

  // The author as the minidom helper reads it: an absent attribute reads as "".
  function AuthorOrEmpty(n: Node): string
    requires n.Elem?
  {
    Author(n).UnwrapOr("")
  }

  // ----- Serialised form

  // The tree without object identities; two elements serialise alike when these agree.
  function Xml(n: Node): Node {
    match n
    case Elem(_, tag, attrs, kids) => Elem(0, tag, attrs, XmlAll(kids))
    case _ => n
  }

  function XmlAll(ns: seq<Node>): seq<Node> {
    if ns == [] then [] else [Xml(ns[0])] + XmlAll(ns[1..])
  }

  // Equal apart from the identities of the objects.
  predicate SameSerial(a: Node, b: Node) {
    match a
    case Elem(_, tag, attrs, kids) => b.Elem? && tag == b.tag && attrs == b.attrs && SameSerialAll(kids, b.kids)
    case _ => a == b
  }

  predicate SameSerialAll(a: seq<Node>, b: seq<Node>) {
    |a| == |b| && forall i | 0 <= i < |a| :: SameSerial(a[i], b[i])
  }

  lemma {:induction false} XmlTellsAll(a: Node, b: Node)
    ensures Xml(a) == Xml(b) <==> SameSerial(a, b)
  {
    if a.Elem? && b.Elem? {
      XmlAllTellsAll(a.kids, b.kids);
    }
  }

  lemma {:induction false} XmlAllTellsAll(a: seq<Node>, b: seq<Node>)
    ensures XmlAll(a) == XmlAll(b) <==> SameSerialAll(a, b)
  {
    if a != [] && b != [] {
      XmlTellsAll(a[0], b[0]);
      XmlAllTellsAll(a[1..], b[1..]);
      assert XmlAll(a)[1..] == XmlAll(a[1..]) && XmlAll(b)[1..] == XmlAll(b[1..]);
      assert SameSerialAll(a, b) ==> SameSerialAll(a[1..], b[1..]);
      assert |a| == |b| ==> forall i | 1 <= i < |a| :: a[i] == a[1..][i - 1] && b[i] == b[1..][i - 1];
    }
  }

  // The first property element of a run, as it serialises.
  function PropsOf(ns: seq<Node>): Option<Node> {
    if ns == [] then None else if ns[0].Is(RPr) then Some(Xml(ns[0])) else PropsOf(ns[1..])
  }

  // i is the first of the property elements.
  predicate FirstProps(ns: seq<Node>, i: nat) {
    i < |ns| && ns[i].Is(RPr) && forall j | 0 <= j < i :: !ns[j].Is(RPr)
  }

  lemma {:induction false} PropsOfFirst(ns: seq<Node>, i: nat)
    ensures FirstProps(ns, i) ==> PropsOf(ns) == Some(Xml(ns[i]))
    ensures (forall n | n in ns :: !n.Is(RPr)) ==> PropsOf(ns) == None
  {
    if ns != [] && !ns[0].Is(RPr) {
      PropsOfFirst(ns[1..], if i > 0 then i - 1 else 0);
      assert FirstProps(ns, i) ==> FirstProps(ns[1..], i - 1);
    }
  }

  // ----- What a reader of the document can tell: every character of text and every element
  // ----- around or between them, in order, with the stack of tracked changes and runs around
  // ----- it, and the same paragraph by paragraph. Where a run, a text or a wrapper begins and
  // ----- ends does not show, and run properties only show on what they apply to.

  datatype Mark =
    | Mark(tag: Tag, author: Option<string>)
    | InRun(format: Option<Node>)
    | InProps

  datatype Glyph =
    | Glyph(ch: char, kind: TextKind, marks: seq<Mark>)
    | Open(tag: Tag, attrs: Attributes, marks: seq<Mark>)
    | Close(marks: seq<Mark>)

  datatype Par = Par(marks: seq<Mark>, glyphs: seq<Glyph>)

  datatype View = View(glyphs: seq<Glyph>, pars: seq<Par>) {
    function Then(v: View): View {
      View(glyphs + v.glyphs, pars + v.pars)
    }
  }

  const BLANK := View([], [])

  function MarksBelow(n: Node, marks: seq<Mark>): seq<Mark>
    requires n.Elem?
  {
    match n.tag
    case Ins => marks + [Mark(Ins, Author(n))]
    case Del => marks + [Mark(Del, Author(n))]
    case R => marks + [InRun(FormatOf(PropsOf(n.kids)))]
    case RPr => marks + [InProps]
    case _ => marks
  }

  // Proofing marks are no formatting.
  function FormatOf(props: Option<Node>): Option<Node> {
    if props.Some? then Some(Proofread(props.value)) else None
  }

  function Proofread(n: Node): Node {
    if n.Elem? then n.(kids := ProofreadAll(n.kids)) else n
  }

  function ProofreadAll(ns: seq<Node>): seq<Node> {
    if ns == [] then []
    else (if ns[0].Is(ProofErr) then [] else [Proofread(ns[0])]) + ProofreadAll(ns[1..])
  }

  predicate Shows(n: Node, marks: seq<Mark>)
    requires n.Elem?
  {
    n.tag !in {R, RPr, Ins, Del, ProofErr} && InProps !in marks
  }

  function Glyphs(kind: TextKind, s: string, marks: seq<Mark>): seq<Glyph> {
    seq(|s|, i requires 0 <= i < |s| => Glyph(s[i], kind, marks))
  }

  ghost function ViewOf(n: Node, marks: seq<Mark>): View {
    match n
    case Chars(_) => BLANK
    case Comment(_) => BLANK
    case TextElem(kind, text, _) => View(Glyphs(kind, text, marks), [])
    case Elem(_, tag, _, kids) => Framed(n, marks, ViewAll(kids, MarksBelow(n, marks)))
  }

  // What an element adds around the view of its children.
  ghost function Framed(n: Node, marks: seq<Mark>, inner: View): View
    requires n.Elem?
  {
    View(Start(n, marks) + inner.glyphs + End(n, marks),
         (if n.tag == P then [Par(MarksBelow(n, marks), inner.glyphs)] else []) + inner.pars)
  }

  function Start(n: Node, marks: seq<Mark>): seq<Glyph>
    requires n.Elem?
  {
    if Shows(n, marks) then [Open(n.tag, n.attrs, marks)] else []
  }

  function End(n: Node, marks: seq<Mark>): seq<Glyph>
    requires n.Elem?
  {
    if Shows(n, marks) then [Close(marks)] else []
  }

  ghost function ViewAll(ns: seq<Node>, marks: seq<Mark>): View {
    if ns == [] then BLANK else ViewOf(ns[0], marks).Then(ViewAll(ns[1..], marks))
  }

  // A document as its reader sees it; the root element itself does not show.
  ghost function Outline(root: Node): View
    requires root.Elem?
  {
    ViewAll(root.kids, [])
  }

  lemma {:induction false} ViewAppend(a: seq<Node>, b: seq<Node>, marks: seq<Mark>)
    ensures ViewAll(a + b, marks) == ViewAll(a, marks).Then(ViewAll(b, marks))
  {
    if a == [] {
      assert a + b == b;
      BlankThen(ViewAll(b, marks));
    } else {
      TailOfSum(a, b);
      ViewAppend(a[1..], b, marks);
      ThenAssociative(ViewOf(a[0], marks), ViewAll(a[1..], marks), ViewAll(b, marks));
    }
  }

  lemma BlankThen(v: View)
    ensures BLANK.Then(v) == v == v.Then(BLANK)
  {
  }

  lemma ThenAssociative(u: View, v: View, w: View)
    ensures u.Then(v).Then(w) == u.Then(v.Then(w))
  {
  }

  lemma ViewOne(n: Node, marks: seq<Mark>)
    ensures ViewAll([n], marks) == ViewOf(n, marks)
  {
    assert ViewAll([n][1..], marks) == BLANK;
  }

  // ----- The same, seen less sharply

  // Authors: an absent author and an empty one are not told apart. Formats: neither are the
  // formats of runs.
  datatype Sight = Sharp | NoAuthors | NoFormats

  function BlurMark(s: Sight, m: Mark): Mark {
    match m
    case Mark(tag, author) => if s.Sharp? then m else Mark(tag, Some(author.UnwrapOr("")))
    case InRun(_) => if s.NoFormats? then InRun(None) else m
    case InProps => m
  }

  function BlurMarks(s: Sight, ms: seq<Mark>): seq<Mark> {
    seq(|ms|, i requires 0 <= i < |ms| => BlurMark(s, ms[i]))
  }

  function BlurGlyph(s: Sight, g: Glyph): Glyph {
    g.(marks := BlurMarks(s, g.marks))
  }

  function BlurGlyphs(s: Sight, gs: seq<Glyph>): seq<Glyph> {
    seq(|gs|, i requires 0 <= i < |gs| => BlurGlyph(s, gs[i]))
  }

  function BlurPars(s: Sight, ps: seq<Par>): seq<Par> {
    seq(|ps|, i requires 0 <= i < |ps| => Par(BlurMarks(s, ps[i].marks), BlurGlyphs(s, ps[i].glyphs)))
  }

  function Blur(s: Sight, v: View): View {
    View(BlurGlyphs(s, v.glyphs), BlurPars(s, v.pars))
  }

  predicate Alike(s: Sight, u: View, v: View) {
    Blur(s, u) == Blur(s, v)
  }

  lemma SharpMarks(ms: seq<Mark>)
    ensures BlurMarks(Sharp, ms) == ms
  {
  }

  lemma SharpGlyphs(gs: seq<Glyph>)
    ensures BlurGlyphs(Sharp, gs) == gs
  {
    forall i | 0 <= i < |gs|
      ensures BlurGlyphs(Sharp, gs)[i] == gs[i]
    {
      SharpMarks(gs[i].marks);
    }
  }

  lemma SharpView(v: View)
    ensures Blur(Sharp, v) == v
  {
    SharpGlyphs(v.glyphs);
    forall i | 0 <= i < |v.pars|
      ensures BlurPars(Sharp, v.pars)[i] == v.pars[i]
    {
      SharpMarks(v.pars[i].marks);
      SharpGlyphs(v.pars[i].glyphs);
    }
  }

  lemma AlikeSharp(u: View, v: View)
    requires Alike(Sharp, u, v)
    ensures u == v
  {
    SharpView(u);
    SharpView(v);
  }

  lemma AlikeThen(s: Sight, u: View, u': View, v: View, v': View)
    requires Alike(s, u, u') && Alike(s, v, v')
    ensures Alike(s, u.Then(v), u'.Then(v'))
  {
    BlurThen(s, u, v);
    BlurThen(s, u', v');
  }

  lemma BlurThen(s: Sight, u: View, v: View)
    ensures Blur(s, u.Then(v)) == Blur(s, u).Then(Blur(s, v))
  {
    assert BlurGlyphs(s, u.glyphs + v.glyphs) == BlurGlyphs(s, u.glyphs) + BlurGlyphs(s, v.glyphs);
    assert BlurPars(s, u.pars + v.pars) == BlurPars(s, u.pars) + BlurPars(s, v.pars);
  }

  lemma FrameUnseen(n: Node, m: seq<Mark>, inner: View)
    requires n.Elem? && n.tag in {R, RPr, Ins, Del, ProofErr}
    ensures Framed(n, m, inner) == inner
  {
  }

  // The frame as views: what is before, between and after.
  lemma FramedParts(n: Node, m: seq<Mark>, inner: View)
    requires n.Elem?
    ensures Framed(n, m, inner) == Before(n, m, inner).Then(inner).Then(View(End(n, m), []))
  {
  }

  ghost function Before(n: Node, m: seq<Mark>, inner: View): View
    requires n.Elem?
  {
    View(Start(n, m), if n.tag == P then [Par(MarksBelow(n, m), inner.glyphs)] else [])
  }

  // Two elements of one kind with the same attributes, unless these do not show.
  predicate SameFrame(a: Node, b: Node)
  {
    a.Elem? && b.Elem? && a.tag == b.tag && (a.attrs == b.attrs || a.tag in {R, Ins, Del})
  }

  lemma AlikeFramed(s: Sight, a: Node, m: seq<Mark>, u: View, b: Node, m': seq<Mark>, v: View)
    requires SameFrame(a, b) && Alike(s, u, v) && BlurMarks(s, m) == BlurMarks(s, m')
    ensures Alike(s, Framed(a, m, u), Framed(b, m', v))
  {
    BlurProps(s, m);
    BlurProps(s, m');
    assert Shows(a, m) == Shows(b, m');
    AlikeBefore(s, a, m, u, b, m', v);
    assert BlurGlyphs(s, End(a, m)) == BlurGlyphs(s, End(b, m'));
    AlikeThen(s, Before(a, m, u), Before(b, m', v), u, v);
    AlikeThen(s, Before(a, m, u).Then(u), Before(b, m', v).Then(v), View(End(a, m), []), View(End(b, m'), []));
    FramedParts(a, m, u);
    FramedParts(b, m', v);
  }

  lemma AlikeBefore(s: Sight, a: Node, m: seq<Mark>, u: View, b: Node, m': seq<Mark>, v: View)
    requires SameFrame(a, b) && Alike(s, u, v) && BlurMarks(s, m) == BlurMarks(s, m')
    requires Shows(a, m) == Shows(b, m')
    ensures Alike(s, Before(a, m, u), Before(b, m', v))
  {
    assert BlurGlyphs(s, Start(a, m)) == BlurGlyphs(s, Start(b, m'));
    if a.tag == P {
      assert BlurPars(s, [Par(m, u.glyphs)]) == BlurPars(s, [Par(m', v.glyphs)]);
    }
  }

  lemma BlurProps(s: Sight, ms: seq<Mark>)
    ensures InProps in BlurMarks(s, ms) <==> InProps in ms
  {
    if InProps in ms {
      var i :| 0 <= i < |ms| && ms[i] == InProps;
      assert BlurMarks(s, ms)[i] == InProps;
    }
  }

  lemma {:induction false} BlurView(s: Sight, n: Node, m: seq<Mark>, m': seq<Mark>)
    requires BlurMarks(s, m) == BlurMarks(s, m')
    ensures Alike(s, ViewOf(n, m), ViewOf(n, m'))
  {
    match n
    case TextElem(kind, text, _) =>
      assert BlurGlyphs(s, Glyphs(kind, text, m)) == BlurGlyphs(s, Glyphs(kind, text, m'));
    case Elem(_, _, _, kids) =>
      BlurBelow(s, n, m, n, m');
      BlurViewAll(s, kids, MarksBelow(n, m), MarksBelow(n, m'));
      AlikeFramed(s, n, m, ViewAll(kids, MarksBelow(n, m)), n, m', ViewAll(kids, MarksBelow(n, m')));
    case _ =>
  }

  lemma {:induction false} BlurViewAll(s: Sight, ns: seq<Node>, m: seq<Mark>, m': seq<Mark>)
    requires BlurMarks(s, m) == BlurMarks(s, m')
    ensures Alike(s, ViewAll(ns, m), ViewAll(ns, m'))
  {
    if ns != [] {
      BlurView(s, ns[0], m, m');
      BlurViewAll(s, ns[1..], m, m');
      AlikeThen(s, ViewOf(ns[0], m), ViewOf(ns[0], m'), ViewAll(ns[1..], m), ViewAll(ns[1..], m'));
    }
  }

  // The marks that two elements of one kind put on what is in them look the same.
  predicate SameMark(s: Sight, a: Node, b: Node) {
    && a.Elem? && b.Elem? && a.tag == b.tag
    && (a.tag in {Ins, Del} ==> Author(a) == Author(b) || (!s.Sharp? && AuthorOrEmpty(a) == AuthorOrEmpty(b)))
    && (a.tag == R ==> s.NoFormats? || FormatOf(PropsOf(a.kids)) == FormatOf(PropsOf(b.kids)))
  }

  lemma BlurBelow(s: Sight, a: Node, m: seq<Mark>, b: Node, m': seq<Mark>)
    requires SameMark(s, a, b) && BlurMarks(s, m) == BlurMarks(s, m')
    ensures BlurMarks(s, MarksBelow(a, m)) == BlurMarks(s, MarksBelow(b, m'))
  {
    assert |m| == |BlurMarks(s, m)| == |m'|;
    var x, y := BlurMarks(s, MarksBelow(a, m)), BlurMarks(s, MarksBelow(b, m'));
    assert x[..|m|] == BlurMarks(s, m) == BlurMarks(s, m') == y[..|m|];
    assert |x| == |y| && forall i | |m| <= i < |x| :: x[i] == y[i];
    assert x == x[..|m|] + x[|m|..] && y == y[..|m|] + y[|m|..];
  }

  // ----- Documents the passes are meant for

  // Property elements hold no text, no paragraph, no table cell and no run.
  ghost predicate Bare(n: Node) {
    match n
    case TextElem(_, _, _) => false
    case Elem(_, tag, _, kids) => tag !in {R, P, Tc} && forall k | k in kids :: Bare(k)
    case _ => true
  }

  // No run is a direct child of a run, run properties are bare, and proofErr is empty.
  ghost predicate Clean(n: Node) {
    n.Elem? ==>
      && (forall k | k in n.kids :: Clean(k))
      && (n.tag == R ==> forall k | k in n.kids :: !k.Is(R))
      && (n.tag == RPr ==> forall k | k in n.kids :: Bare(k))
      && (n.tag == ProofErr ==> n.kids == [])
  }

  ghost predicate CleanAll(ns: seq<Node>) {
    forall n | n in ns :: Clean(n)
  }

  // Properties do not show.
  lemma {:induction false} BareIsUnseen(n: Node, marks: seq<Mark>)
    requires Bare(n) && InProps in marks
    ensures ViewOf(n, marks) == BLANK
  {
    if n.Elem? {
      BareAllUnseen(n.kids, MarksBelow(n, marks));
    }
  }

  lemma {:induction false} BareAllUnseen(ns: seq<Node>, marks: seq<Mark>)
    requires (forall n | n in ns :: Bare(n)) && InProps in marks
    ensures ViewAll(ns, marks) == BLANK
  {
    if ns != [] {
      BareIsUnseen(ns[0], marks);
      BareAllUnseen(ns[1..], marks);
    }
  }

  // ----- Counting elements of one kind

  function Count(n: Node, tag: Tag): nat {
    if n.Elem? then (if n.tag == tag then 1 else 0) + CountAll(n.kids, tag) else 0
  }

  function CountAll(ns: seq<Node>, tag: Tag): nat {
    if ns == [] then 0 else Count(ns[0], tag) + CountAll(ns[1..], tag)
  }

  lemma {:induction false} CountAppend(a: seq<Node>, b: seq<Node>, tag: Tag)
    ensures CountAll(a + b, tag) == CountAll(a, tag) + CountAll(b, tag)
  {
    if a == [] {
      assert a + b == b;
    } else {
      assert (a + b)[1..] == a[1..] + b;
      CountAppend(a[1..], b, tag);
    }
  }
}
