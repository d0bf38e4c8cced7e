/** Unpacking a document and checking it again: the two passes in place, in the order unpack.py
    runs them, and what the redlining validator makes of their result. */
module Unpacking {
  import opened DocxTree
  import opened Options
  import Strings
  import opened Sequences
  import opened Coalesce
  import opened TreePasses
  import opened ChildLists
  import opened Redlining
  import opened RejectionWalk
  import opened TrackedEdits

  // ----- What merge_runs removes before it merges

  function LowerAscii(c: char): char {
    if 'A' <= c <= 'Z' then (c as int + 32) as char else c
  }

  predicate NamesRsid(name: string) {
    exists i | 0 <= i && i + 4 <= |name| ::
      LowerAscii(name[i]) == 'r' && LowerAscii(name[i + 1]) == 's' &&
      LowerAscii(name[i + 2]) == 'i' && LowerAscii(name[i + 3]) == 'd'
  }

  function WithoutRsid(attrs: Attributes): Attributes {
    if attrs == [] then []
    else (if NamesRsid(attrs[0].0) then [] else [attrs[0]]) + WithoutRsid(attrs[1..])
  }

  // Case does not matter, and the word may be anywhere.
  lemma NamesRsidExactly(name: string)
    ensures NamesRsid(name) <==>
            exists i :: 0 <= i && i + 4 <= |name| &&
              name[i] in "rR" && name[i + 1] in "sS" && name[i + 2] in "iI" && name[i + 3] in "dD"
  {
    forall c
      ensures (LowerAscii(c) == 'r' <==> c in "rR") && (LowerAscii(c) == 's' <==> c in "sS")
      ensures (LowerAscii(c) == 'i' <==> c in "iI") && (LowerAscii(c) == 'd' <==> c in "dD")
    {
    }
  }

  // Exactly the other attributes stay, each with its value; those on a list of attributes that
  // has none of them all do.
  lemma {:induction false} WithoutRsidExactly(attrs: Attributes)
    ensures forall attr :: attr in WithoutRsid(attrs) <==> attr in attrs && !NamesRsid(attr.0)
    ensures (forall attr | attr in attrs :: !NamesRsid(attr.0)) ==> WithoutRsid(attrs) == attrs
  {
    if attrs != [] {
      WithoutRsidExactly(attrs[1..]);
    }
  }

  function Stripped(n: Node): Node {
    if !n.Elem? then n
    else n.(kids := StrippedAll(n.kids), attrs := if n.tag == R then WithoutRsid(n.attrs) else n.attrs)
  }

  function StrippedAll(ns: seq<Node>): seq<Node> {
    if ns == [] then []
    else (if ns[0].Is(ProofErr) then [] else [Stripped(ns[0])]) + StrippedAll(ns[1..])
  }

  // Stripping takes nothing off the format of a run.
  lemma {:induction false} StrippedFormat(ns: seq<Node>)
    requires CleanAll(ns)
    ensures FormatOf(PropsOf(StrippedAll(ns))) == FormatOf(PropsOf(ns))
  {
    if ns != [] {
      assert Clean(ns[0]);
      StrippedFormat(ns[1..]);
      if ns[0].Is(RPr) {
        ProofreadStripped(ns[0].kids);
      } else if ns[0].Is(ProofErr) {
        assert StrippedAll(ns) == StrippedAll(ns[1..]);
      } else {
        assert StrippedAll(ns)[1..] == StrippedAll(ns[1..]);
      }
    }
  }

  lemma {:induction false} ProofreadStripped(ns: seq<Node>)
    requires forall n | n in ns :: Bare(n)
    ensures ProofreadAll(XmlAll(StrippedAll(ns))) == ProofreadAll(XmlAll(ns))
  {
    if ns != [] {
      assert Bare(ns[0]);
      ProofreadStripped(ns[1..]);
      if ns[0].Is(ProofErr) {
        assert StrippedAll(ns) == StrippedAll(ns[1..]);
        assert XmlAll(ns)[1..] == XmlAll(ns[1..]);
      } else {
        if ns[0].Elem? {
          ProofreadStripped(ns[0].kids);
        }
        assert StrippedAll(ns)[1..] == StrippedAll(ns[1..]);
        assert XmlAll(ns)[1..] == XmlAll(ns[1..]) && XmlAll(StrippedAll(ns))[1..] == XmlAll(StrippedAll(ns[1..]));
      }
    }
  }

  lemma {:induction false} StrippedView(n: Node, marks: seq<Mark>)
    requires Clean(n)
    ensures ViewOf(Stripped(n), marks) == ViewOf(n, marks)
  {
    if n.Elem? {
      StrippedFormat(n.kids);
      assert MarksBelow(Stripped(n), marks) == MarksBelow(n, marks);
      StrippedAllView(n.kids, MarksBelow(n, marks));
    }
  }

  lemma {:induction false} StrippedAllView(ns: seq<Node>, marks: seq<Mark>)
    requires CleanAll(ns)
    ensures ViewAll(StrippedAll(ns), marks) == ViewAll(ns, marks)
  {
    if ns != [] {
      assert Clean(ns[0]);
      StrippedAllView(ns[1..], marks);
      if ns[0].Is(ProofErr) {
        BlankThen(ViewAll(ns[1..], marks));
        assert ViewOf(ns[0], marks) == BLANK;
        assert StrippedAll(ns) == StrippedAll(ns[1..]);
      } else {
        StrippedView(ns[0], marks);
        assert StrippedAll(ns)[1..] == StrippedAll(ns[1..]);
      }
    }
  }

  lemma {:induction false} StrippedClean(n: Node)
    requires Clean(n)
    ensures Clean(Stripped(n))
  {
    if n.Elem? {
      StrippedAllClean(n.kids);
    }
  }

  lemma {:induction false} StrippedAllClean(ns: seq<Node>)
    requires CleanAll(ns)
    ensures CleanAll(StrippedAll(ns))
    ensures (forall n | n in ns :: !n.Is(R)) ==> forall n | n in StrippedAll(ns) :: !n.Is(R)
    ensures (forall n | n in ns :: Bare(n)) ==> forall n | n in StrippedAll(ns) :: Bare(n)
  {
    if ns != [] {
      assert Clean(ns[0]);
      StrippedClean(ns[0]);
      if ns[0].Elem? {
        StrippedAllClean(ns[0].kids);
      }
      StrippedAllClean(ns[1..]);
    }
  }

  // Stripping takes away no run.
  lemma {:induction false} StrippedKeepsRuns(n: Node)
    requires Clean(n)
    ensures Count(Stripped(n), R) == Count(n, R)
  {
    if n.Elem? {
      StrippedAllKeepsRuns(n.kids);
    }
  }

  lemma {:induction false} StrippedAllKeepsRuns(ns: seq<Node>)
    requires CleanAll(ns)
    ensures CountAll(StrippedAll(ns), R) == CountAll(ns, R)
  {
    if ns != [] {
      assert Clean(ns[0]);
      StrippedAllKeepsRuns(ns[1..]);
      if ns[0].Is(ProofErr) {
        assert Count(ns[0], R) == CountAll(ns[0].kids, R) == 0;
        assert StrippedAll(ns) == StrippedAll(ns[1..]);
      } else {
        StrippedKeepsRuns(ns[0]);
        assert StrippedAll(ns)[1..] == StrippedAll(ns[1..]);
      }
    }
  }

  // ----- The passes on a document, and the walk to a remembered container

  function Simplified(root: Node): Node {
    Everywhere(Simplify, root)
  }

  function RunsMerged(root: Node): Node {
    Everywhere(MergeRuns, Stripped(root))
  }

  function Unpacked(root: Node): Node {
    RunsMerged(Simplified(root))
  }

  function FindIds(n: Node, tag: Tag): seq<nat> {
    if n.Elem? then (if n.tag == tag then [n.id] else []) + FindIdsAll(n.kids, tag) else []
  }

  function FindIdsAll(ns: seq<Node>, tag: Tag): seq<nat> {
    if ns == [] then [] else FindIds(ns[0], tag) + FindIdsAll(ns[1..], tag)
  }

  lemma {:induction false} FindIdsCover(n: Node)
    ensures SiteIds(Simplify, n) == set id | id in FindIds(n, P) + FindIds(n, Tc)
  {
    if n.Elem? {
      FindIdsCoverAll(n.kids);
    }
  }

  lemma {:induction false} FindIdsCoverAll(ns: seq<Node>)
    ensures SiteIdsAll(Simplify, ns) == set id | id in FindIdsAll(ns, P) + FindIdsAll(ns, Tc)
  {
    if ns != [] {
      FindIdsCover(ns[0]);
      FindIdsCoverAll(ns[1..]);
    }
  }

  method StripElements(n: Node) returns (m: Node)
    ensures m == Stripped(n)
  {
    if !n.Elem? {
      return n;
    }
    var kids: seq<Node> := [];
    for k := 0 to |n.kids|
      invariant kids + StrippedAll(n.kids[k..]) == StrippedAll(n.kids)
    {
      if !n.kids[k].Is(ProofErr) {
        var child := StripElements(n.kids[k]);
        kids := kids + [child];
      }
      assert n.kids[k..][1..] == n.kids[k + 1..];
    }
    m := n.(kids := kids, attrs := if n.tag == R then WithoutRsid(n.attrs) else n.attrs);
  }

  method CoalesceChildren(pass: Pass, childNodes: seq<Node>) returns (kids: seq<Node>, mergeCount: nat)
    ensures kids == Local(pass, childNodes)
    ensures mergeCount == |childNodes| - |kids|
  {
    match pass
    case Simplify =>
      var first, firstCount := MergeTrackedChangesIn(childNodes, Ins);
      var secondCount;
      kids, secondCount := MergeTrackedChangesIn(first, Del);
      mergeCount := firstCount + secondCount;
    case MergeRuns =>
      kids, mergeCount := MergeRunsIn(childNodes);
  }

  // Coalesces the child list of the container c, wherever in the tree it is.
  method CoalesceAt(pass: Pass, c: nat, n: Node) returns (m: Node, mergeCount: nat)
    requires Suits(pass, n)
    ensures m == Rewrite(pass, {c}, n)
    ensures mergeCount == Weight(pass, n) - Weight(pass, m)
    decreases n, 1
  {
    if !n.Elem? {
      return n, 0;
    }
    var kids;
    kids, mergeCount := CoalesceBelow(pass, c, n.kids);
    if n.id == c && Site(pass, n) {
      RewriteAllSuits(pass, {c}, n.kids);
      LocalLoses(pass, kids);
      var count;
      kids, count := CoalesceChildren(pass, kids);
      mergeCount := mergeCount + count;
    }
    m := n.(kids := kids);
  }

  method CoalesceBelow(pass: Pass, c: nat, ns: seq<Node>) returns (kids: seq<Node>, mergeCount: nat)
    requires SuitsAll(pass, ns)
    ensures kids == RewriteAll(pass, {c}, ns)
    ensures mergeCount == WeightAll(pass, ns) - WeightAll(pass, kids)
    decreases ns, 0
  {
    kids, mergeCount := [], 0;
    for k := 0 to |ns|
      invariant CoalescedTo(pass, c, ns, k, kids, mergeCount)
    {
      var child, count := CoalesceAt(pass, c, ns[k]);
      OneMoreCoalesced(pass, c, ns, k, kids, mergeCount, child, count);
      kids, mergeCount := kids + [child], mergeCount + count;
    }
  }

  // The first k children are done.
  ghost predicate CoalescedTo(pass: Pass, c: nat, ns: seq<Node>, k: nat, kids: seq<Node>, mergeCount: int) {
    && k <= |ns| && kids + RewriteAll(pass, {c}, ns[k..]) == RewriteAll(pass, {c}, ns)
    && mergeCount + WeightAll(pass, kids) + WeightAll(pass, ns[k..]) == WeightAll(pass, ns)
  }

  lemma OneMoreCoalesced(pass: Pass, c: nat, ns: seq<Node>, k: nat, kids: seq<Node>, mergeCount: int, child: Node, count: int)
    requires k < |ns| && CoalescedTo(pass, c, ns, k, kids, mergeCount)
    requires child == Rewrite(pass, {c}, ns[k]) && count == Weight(pass, ns[k]) - Weight(pass, child)
    ensures CoalescedTo(pass, c, ns, k + 1, kids + [child], mergeCount + count)
  {
    assert ns[k..][1..] == ns[k + 1..];
    WeightAppend(pass, kids, child);
    Regrouped(kids, [child], RewriteAll(pass, {c}, ns[k + 1..]));
  }

  lemma WeightAppend(pass: Pass, ns: seq<Node>, n: Node)
    ensures WeightAll(pass, ns + [n]) == WeightAll(pass, ns) + Weight(pass, n)
  {
    assert forall tag :: CountAll([n], tag) == Count(n, tag) + CountAll([n][1..], tag);
    match pass
    case Simplify =>
      CountAppend(ns, [n], Ins);
      CountAppend(ns, [n], Del);
    case MergeRuns =>
      CountAppend(ns, [n], R);
  }

  // word/document.xml, parsed.
  class Document {
    var root: Node

    constructor (n: Node)
      ensures root == n
    {
      root := n;
    }

    // simplify_redlines: paragraphs first, then table cells.
    method SimplifyRedlines() returns (mergeCount: nat)
      modifies this
      ensures root == Simplified(old(root))
      ensures NoneLeft(Simplify, root) && (old(root).Elem? ==> root.Elem? && Alike(NoFormats, Outline(root), Outline(old(root))))
      ensures mergeCount == Weight(Simplify, old(root)) - Weight(Simplify, root)
    {
      SimplifiedFinished(root);
      var containers := FindIds(root, P) + FindIds(root, Tc);
      mergeCount := 0;
      ghost var done: set<nat> := {};
      RewriteNothing(Simplify, root);
      for i := 0 to |containers|
        invariant forall j | 0 <= j < i :: containers[j] in done
        invariant root == Rewrite(Simplify, done, old(root))
        invariant mergeCount == Weight(Simplify, old(root)) - Weight(Simplify, root)
      {
        var id, count := containers[i], 0;
        OneMoreSite(Simplify, done, id, old(root), root);
        root, count := CoalesceAt(Simplify, id, root);
        mergeCount := mergeCount + count;
        done := done + {id};
      }
      AllSitesDone(old(root), containers, done);
    }

    // merge_runs: the containers are a set, taken in whatever order it yields them.
    method MergeRuns() returns (mergeCount: nat)
      requires Clean(root)
      modifies this
      ensures root == RunsMerged(old(root))
      ensures !old(root).Is(R) ==> NoneLeft(Pass.MergeRuns, root)
      ensures old(root).Elem? ==> root.Elem? && Outline(root) == Outline(old(root))
      ensures mergeCount == Weight(Pass.MergeRuns, old(root)) - Weight(Pass.MergeRuns, root)
    {
      RunsMergedFinished(root);
      root := StripElements(root);
      StrippedClean(old(root));
      StrippedKeepsRuns(old(root));
      ghost var start := root;
      var containers := SiteIds(Pass.MergeRuns, root);
      mergeCount := 0;
      var left := containers;
      RewriteNothing(Pass.MergeRuns, root);
      assert containers - left == {};
      while left != {}
        invariant left <= containers
        invariant Clean(root) && root == Rewrite(Pass.MergeRuns, containers - left, start)
        invariant mergeCount == Weight(Pass.MergeRuns, start) - Weight(Pass.MergeRuns, root)
      {
        var container :| container in left;
        OneMoreSite(Pass.MergeRuns, containers - left, container, start, root);
        assert containers - left + {container} == containers - (left - {container});
        var count;
        root, count := CoalesceAt(Pass.MergeRuns, container, root);
        mergeCount := mergeCount + count;
        left := left - {container};
      }
      assert containers - left == containers;
      SitesSuffice(Pass.MergeRuns, containers, start);
    }

    method RemoveAuthorTrackedChanges(author: string)
      requires root.Elem?
      modifies this
      ensures root == RejectInPlace(author, old(root))
    {
      root := DropInsertions(author, root);
      root := UndoDeletions(author, root);
    }
  }

  lemma AllSitesDone(n: Node, containers: seq<nat>, done: set<nat>)
    requires containers == FindIds(n, P) + FindIds(n, Tc)
    requires forall j | 0 <= j < |containers| :: containers[j] in done
    ensures Rewrite(Simplify, done, n) == Everywhere(Simplify, n)
  {
    FindIdsCover(n);
    SitesSuffice(Simplify, done, n);
  }

  lemma OneMoreSite(pass: Pass, done: set<nat>, id: nat, start: Node, now: Node)
    requires Suits(pass, start) && now == Rewrite(pass, done, start)
    ensures Suits(pass, Rewrite(pass, {id}, now)) && Rewrite(pass, {id}, now) == Rewrite(pass, done + {id}, start)
  {
    if pass == MergeRuns {
      RewriteClean(pass, done, start);
      RewriteClean(pass, {id}, now);
    }
    RewriteCompose(pass, done, {id}, start);
  }

  lemma {:induction false} RewriteNothing(pass: Pass, n: Node)
    ensures Rewrite(pass, {}, n) == n
  {
    if n.Elem? {
      RewriteNothingAll(pass, n.kids);
    }
  }

  lemma {:induction false} RewriteNothingAll(pass: Pass, ns: seq<Node>)
    ensures RewriteAll(pass, {}, ns) == ns
  {
    if ns != [] {
      RewriteNothing(pass, ns[0]);
      RewriteNothingAll(pass, ns[1..]);
    }
  }

  // ----- What unpacking keeps

  lemma EverywhereClean(pass: Pass, n: Node)
    requires Clean(n)
    ensures Clean(Everywhere(pass, n))
  {
    SitesSuffice(pass, SiteIds(pass, n), n);
    RewriteClean(pass, SiteIds(pass, n), n);
  }

  lemma EverywhereKept(s: Sight, pass: Pass, n: Node)
    requires n.Elem? && KeepsAll(s, pass, n.kids) && Keeps(s, pass, n)
    ensures Everywhere(pass, n).Elem? && Alike(s, Outline(Everywhere(pass, n)), Outline(n))
  {
    var ids := SiteIds(pass, n);
    SitesSuffice(pass, ids, n);
    RewriteAllView(s, pass, ids, n.kids, []);
    RewriteAllSuits(pass, ids, n.kids);
    LocalView(s, pass, RewriteAll(pass, ids, n.kids), []);
  }

  // Each character and element keeps its place, its paragraph, the stack of tracked changes
  // around it and the format of its run; merging wrappers takes an absent author for an empty one.
  lemma SimplifyingKeepsOutline(root: Node)
    requires root.Elem?
    ensures Simplified(root).Elem? && Alike(NoFormats, Outline(Simplified(root)), Outline(root))
    ensures Clean(root) ==> Alike(NoAuthors, Outline(Simplified(root)), Outline(root))
  {
    EverywhereKept(NoFormats, Simplify, root);
    if Clean(root) {
      EverywhereKept(NoAuthors, Simplify, root);
    }
  }

  lemma MergingRunsKeepsOutline(root: Node)
    requires root.Elem? && Clean(root)
    ensures RunsMerged(root).Elem? && Outline(RunsMerged(root)) == Outline(root)
  {
    StrippedClean(root);
    StrippedAllView(root.kids, []);
    EverywhereKept(Sharp, MergeRuns, Stripped(root));
    AlikeSharp(Outline(RunsMerged(root)), Outline(Stripped(root)));
  }

  // Nothing is left that could be merged, and everything that shows is as it was.
  lemma SimplifiedFinished(root: Node)
    ensures NoneLeft(Simplify, Simplified(root))
    ensures root.Elem? ==> Simplified(root).Elem? && Alike(NoFormats, Outline(Simplified(root)), Outline(root))
  {
    EverywhereNormal(Simplify, root);
    NormalMeans(Simplify, Simplified(root));
    if root.Elem? {
      SimplifyingKeepsOutline(root);
    }
  }

  lemma RunsMergedFinished(root: Node)
    requires Clean(root)
    ensures !root.Is(R) ==> NoneLeft(MergeRuns, RunsMerged(root))
    ensures root.Elem? ==> RunsMerged(root).Elem? && Outline(RunsMerged(root)) == Outline(root)
  {
    StrippedClean(root);
    if !root.Is(R) {
      EverywhereNormal(MergeRuns, Stripped(root));
      NormalMeans(MergeRuns, RunsMerged(root));
    }
    if root.Elem? {
      MergingRunsKeepsOutline(root);
    }
  }

  lemma UnpackingKeepsOutline(root: Node)
    requires root.Elem? && Clean(root)
    ensures Unpacked(root).Elem? && Clean(Unpacked(root))
    ensures Alike(NoAuthors, Outline(Unpacked(root)), Outline(root))
  {
    SimplifyingKeepsOutline(root);
    EverywhereClean(Simplify, root);
    MergingRunsKeepsOutline(Simplified(root));
    StrippedClean(Simplified(root));
    EverywhereClean(MergeRuns, Stripped(Simplified(root)));
  }

  // Rejecting the changes of an author with a name cannot tell an absent author from an empty one.
  lemma {:induction false} BlurSurvives(author: string, s: Sight, gs: seq<Glyph>)
    requires author != ""
    ensures Surviving(author, BlurGlyphs(s, gs)) == Surviving(author, gs)
  {
    if gs != [] {
      BlurSurvives(author, s, gs[1..]);
      BlurMarked(author, s, gs[0].marks);
      assert BlurGlyphs(s, gs)[1..] == BlurGlyphs(s, gs[1..]);
    }
  }

  lemma BlurMarked(author: string, s: Sight, ms: seq<Mark>)
    requires author != ""
    ensures forall tag :: Mark(tag, Some(author)) in BlurMarks(s, ms) <==> Mark(tag, Some(author)) in ms
  {
    forall tag | Mark(tag, Some(author)) in ms
      ensures Mark(tag, Some(author)) in BlurMarks(s, ms)
    {
      var i :| 0 <= i < |ms| && ms[i] == Mark(tag, Some(author));
      assert BlurMarks(s, ms)[i] == Mark(tag, Some(author));
    }
  }

  lemma {:induction false} BlurSurvivingPars(author: string, s: Sight, ps: seq<Par>)
    requires author != ""
    ensures SurvivingPars(author, BlurPars(s, ps)) == SurvivingPars(author, ps)
  {
    if ps != [] {
      BlurSurvivingPars(author, s, ps[1..]);
      BlurMarked(author, s, ps[0].marks);
      BlurSurvives(author, s, ps[0].glyphs);
      assert BlurPars(s, ps)[1..] == BlurPars(s, ps[1..]);
    }
  }

  // ... so a document that looks the same, up to that, leaves the same.
  lemma SameRejectedText(author: string, s: Sight, a: Node, b: Node)
    requires a.Elem? && b.Elem? && Alike(s, Outline(a), Outline(b)) && author != ""
    ensures Extracted(RejectInPlace(author, a)) == Extracted(RejectInPlace(author, b))
  {
    BlurSurvivingPars(author, s, Outline(a).pars);
    BlurSurvivingPars(author, s, Outline(b).pars);
    RejectedText(author, a);
    RejectedText(author, b);
  }

  // Neither the text nor the text left after rejecting an author's changes is changed.
  lemma UnpackingKeepsText(author: string, root: Node)
    requires root.Elem? && Clean(root) && author != ""
    ensures Extracted(Unpacked(root)) == Extracted(root)
    ensures Extracted(RejectInPlace(author, Unpacked(root))) == Extracted(RejectInPlace(author, root))
  {
    UnpackingKeepsOutline(root);
    SameRejectedText(author, NoAuthors, Unpacked(root), root);
    PlainText(root);
    PlainText(Unpacked(root));
    BlurPlainPars(NoAuthors, Outline(root).pars);
    BlurPlainPars(NoAuthors, Outline(Unpacked(root)).pars);
  }

  // The extracted text is what nobody has struck.
  function Plain(gs: seq<Glyph>): string {
    if gs == [] then "" else PlainOne(gs[0]) + Plain(gs[1..])
  }

  function PlainOne(g: Glyph): string {
    if g.Glyph? && g.kind == T then [g.ch] else ""
  }

  function PlainPars(ps: seq<Par>): seq<string> {
    if ps == [] then [] else [Plain(ps[0].glyphs)] + PlainPars(ps[1..])
  }

  lemma {:induction false} BlurPlain(s: Sight, gs: seq<Glyph>)
    ensures Plain(BlurGlyphs(s, gs)) == Plain(gs)
  {
    if gs != [] {
      BlurPlain(s, gs[1..]);
      assert BlurGlyphs(s, gs)[1..] == BlurGlyphs(s, gs[1..]);
    }
  }

  lemma {:induction false} BlurPlainPars(s: Sight, ps: seq<Par>)
    ensures PlainPars(BlurPars(s, ps)) == PlainPars(ps)
  {
    if ps != [] {
      BlurPlainPars(s, ps[1..]);
      BlurPlain(s, ps[0].glyphs);
      assert BlurPars(s, ps)[1..] == BlurPars(s, ps[1..]);
    }
  }

  lemma {:induction false} PlainAppend(g: seq<Glyph>, h: seq<Glyph>)
    ensures Plain(g + h) == Plain(g) + Plain(h)
  {
    if g == [] {
      assert g + h == h;
    } else {
      assert (g + h)[1..] == g[1..] + h;
      PlainAppend(g[1..], h);
      assert PlainOne(g[0]) + (Plain(g[1..]) + Plain(h)) == PlainOne(g[0]) + Plain(g[1..]) + Plain(h);
    }
  }

  lemma {:induction false} PlainParsAppend(p: seq<Par>, q: seq<Par>)
    ensures PlainPars(p + q) == PlainPars(p) + PlainPars(q)
  {
    if p == [] {
      assert p + q == q;
    } else {
      assert (p + q)[1..] == p[1..] + q;
      PlainParsAppend(p[1..], q);
    }
  }

  lemma {:induction false} PlainGlyphs(kind: TextKind, s: string, marks: seq<Mark>)
    ensures Plain(Glyphs(kind, s, marks)) == if kind == T then s else ""
  {
    if s != "" {
      assert Glyphs(kind, s, marks)[1..] == Glyphs(kind, s[1..], marks);
      PlainGlyphs(kind, s[1..], marks);
      assert [s[0]] + s[1..] == s;
    }
  }

  lemma PlainFramed(n: Node, m: seq<Mark>, inner: View)
    requires n.Elem?
    ensures Plain(Framed(n, m, inner).glyphs) == Plain(inner.glyphs)
    ensures PlainPars(Framed(n, m, inner).pars) == (if n.tag == P then [Plain(inner.glyphs)] else []) + PlainPars(inner.pars)
  {
    PlainAppend(Start(n, m), inner.glyphs);
    PlainAppend(Start(n, m) + inner.glyphs, End(n, m));
    PlainFrame(n, m);
    var par := if n.tag == P then [Par(MarksBelow(n, m), inner.glyphs)] else [];
    assert par != [] ==> par[1..] == [];
    PlainParsAppend(par, inner.pars);
    assert Plain(Framed(n, m, inner).glyphs) == "" + Plain(inner.glyphs) + "";
  }

  lemma PlainFrame(n: Node, m: seq<Mark>)
    requires n.Elem?
    ensures Plain(Start(n, m)) == "" == Plain(End(n, m))
  {
    if Shows(n, m) {
      assert Start(n, m)[1..] == [] && End(n, m)[1..] == [];
    }
  }

  lemma {:induction false} PlainAll(ns: seq<Node>, marks: seq<Mark>)
    ensures TextOf(ns) == Plain(ViewAll(ns, marks).glyphs)
    ensures ParagraphTexts(ns) == PlainPars(ViewAll(ns, marks).pars)
  {
    if ns != [] {
      PlainAll(ns[1..], marks);
      PlainNode(ns[0], marks);
      var v, w := ViewOf(ns[0], marks), ViewAll(ns[1..], marks);
      PlainAppend(v.glyphs, w.glyphs);
      PlainParsAppend(v.pars, w.pars);
    }
  }

  lemma {:induction false} PlainNode(n: Node, marks: seq<Mark>)
    ensures TextIn(n) == Plain(ViewOf(n, marks).glyphs)
    ensures ParagraphsIn(n) == PlainPars(ViewOf(n, marks).pars)
  {
    match n
    case TextElem(kind, text, _) => PlainGlyphs(kind, text, marks);
    case Elem(_, _, _, kids) =>
      var below := MarksBelow(n, marks);
      PlainAll(kids, below);
      PlainFramed(n, marks, ViewAll(kids, below));
    case _ =>
  }

  lemma PlainText(root: Node)
    requires root.Elem?
    ensures Extracted(root) == Strings.JoinLines(NonEmpty(PlainPars(Outline(root).pars)))
  {
    PlainAll(root.kids, []);
  }

  // Unpack a document, edit it with properly tracked changes: the validator, which compares with
  // the document as it was before unpacking, accepts the result.
  lemma UnpackedEditsAccepted(author: string, es: seq<Edit>, original: Node)
    requires author != "" && original.Elem? && Clean(original)
    requires Unpacked(original).Elem? && AllLegal(author, es, Unpacked(original).kids)
    ensures Accepts(author, original, Unpacked(original).(kids := EditedAll(author, es, Unpacked(original).kids)))
  {
    UnpackingKeepsText(author, original);
    TrackedEditsAccepted(author, es, Unpacked(original));
  }
}
