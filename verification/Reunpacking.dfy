/** Unpacking a document twice. Merging runs is idempotent, and so is merging tracked changes, but
    the two in turn are not: merge_runs removes the proofErr elements that kept tracked changes
    apart when those were merged. When that matters can be read off the document. */
module Reunpacking {
  import opened DocxTree
  import opened Options
  import opened Sequences
  import opened Coalesce
  import opened TreePasses
  import opened Unpacking

  // ----- Each pass alone is idempotent

  lemma SimplifyIsIdempotent(root: Node)
    ensures NormalTree(Simplify, Simplified(root)) && Simplified(Simplified(root)) == Simplified(root)
  {
    EverywhereNormal(Simplify, root);
    NormalIsFixed(Simplify, Simplified(root));
  }

  // Nothing left for merge_runs to remove.
  ghost predicate Scrubbed(n: Node) {
    n.Elem? ==>
      && (n.tag == R ==> WithoutRsid(n.attrs) == n.attrs)
      && forall k | k in n.kids :: !k.Is(ProofErr) && Scrubbed(k)
  }

  lemma {:induction false} WithoutRsidTwice(attrs: Attributes)
    ensures WithoutRsid(WithoutRsid(attrs)) == WithoutRsid(attrs)
  {
    if attrs != [] {
      WithoutRsidTwice(attrs[1..]);
      var rest := WithoutRsid(attrs[1..]);
      if NamesRsid(attrs[0].0) {
        assert WithoutRsid(attrs) == rest;
      } else {
        assert WithoutRsid(attrs) == [attrs[0]] + rest && ([attrs[0]] + rest)[1..] == rest;
      }
    }
  }

  lemma {:induction false} StrippedIsScrubbed(n: Node)
    ensures Scrubbed(Stripped(n))
  {
    if n.Elem? {
      WithoutRsidTwice(n.attrs);
      StrippedAllScrubbed(n.kids);
    }
  }

  lemma {:induction false} StrippedAllScrubbed(ns: seq<Node>)
    ensures forall n | n in StrippedAll(ns) :: !n.Is(ProofErr) && Scrubbed(n)
  {
    if ns != [] {
      StrippedIsScrubbed(ns[0]);
      StrippedAllScrubbed(ns[1..]);
    }
  }

  lemma {:induction false} ScrubbedIsFixed(n: Node)
    requires Scrubbed(n)
    ensures Stripped(n) == n
  {
    if n.Elem? {
      ScrubbedAllFixed(n.kids);
    }
  }

  lemma {:induction false} ScrubbedAllFixed(ns: seq<Node>)
    requires forall n | n in ns :: !n.Is(ProofErr) && Scrubbed(n)
    ensures StrippedAll(ns) == ns
  {
    if ns != [] {
      assert !ns[0].Is(ProofErr);
      ScrubbedIsFixed(ns[0]);
      ScrubbedAllFixed(ns[1..]);
    }
  }

  lemma FuseScrubbed(rule: Rule, ns: seq<Node>)
    requires rule == Runs || rule == Texts
    requires forall n | n in ns :: !n.Is(ProofErr) && Scrubbed(n)
    ensures forall n | n in Fuse(rule, ns) :: !n.Is(ProofErr) && Scrubbed(n)
  {
    forall a, b | Joins(rule, a, b) && Scrubbed(a) && Scrubbed(b)
      ensures Scrubbed(Join(rule, a, b))
    {
      if rule == Runs {
        MovedFrom(b.kids);
      }
    }
    FuseKeeps(rule, (n: Node) => !n.Is(ProofErr) && Scrubbed(n), ns);
  }

  lemma {:induction false} MergeTextsScrubbed(ns: seq<Node>)
    requires forall n | n in ns :: !n.Is(ProofErr) && Scrubbed(n)
    ensures forall n | n in MergeTextsAll(ns) :: !n.Is(ProofErr) && Scrubbed(n)
  {
    if ns != [] {
      assert Scrubbed(ns[0]);
      if ns[0].Is(R) {
        FuseScrubbed(Texts, ns[0].kids);
      }
      MergeTextsScrubbed(ns[1..]);
    }
  }

  lemma {:induction false} MergedIsScrubbed(n: Node)
    requires Scrubbed(n)
    ensures Scrubbed(Everywhere(MergeRuns, n))
  {
    if n.Elem? {
      MergedAllScrubbed(n.kids);
      var ks := EverywhereAll(MergeRuns, n.kids);
      FuseScrubbed(Runs, ks);
      MergeTextsScrubbed(Fuse(Runs, ks));
    }
  }

  lemma {:induction false} MergedAllScrubbed(ns: seq<Node>)
    requires forall n | n in ns :: !n.Is(ProofErr) && Scrubbed(n)
    ensures forall n | n in EverywhereAll(MergeRuns, ns) :: !n.Is(ProofErr) && Scrubbed(n)
  {
    if ns != [] {
      assert Scrubbed(ns[0]);
      MergedIsScrubbed(ns[0]);
      MergedAllScrubbed(ns[1..]);
    }
  }

  lemma RunsMergedScrubbed(root: Node)
    ensures Scrubbed(RunsMerged(root))
  {
    StrippedIsScrubbed(root);
    MergedIsScrubbed(Stripped(root));
  }

  // A second merge_runs changes nothing ...
  lemma MergeRunsIsIdempotent(root: Node)
    requires Clean(root) && !root.Is(R)
    ensures NormalTree(MergeRuns, RunsMerged(root)) && RunsMerged(RunsMerged(root)) == RunsMerged(root)
  {
    StrippedClean(root);
    EverywhereNormal(MergeRuns, Stripped(root));
    RunsMergedScrubbed(root);
    ScrubbedIsFixed(RunsMerged(root));
    NormalIsFixed(MergeRuns, RunsMerged(root));
  }

  // ... and returns 0.
  method MergeRunsAgain(d: Document) returns (mergeCount: nat)
    requires Clean(d.root) && !d.root.Is(R)
    modifies d
    ensures mergeCount == 0 && d.root == RunsMerged(old(d.root))
  {
    var first := d.MergeRuns();
    MergeRunsIsIdempotent(old(d.root));
    StrippedClean(old(d.root));
    EverywhereClean(Pass.MergeRuns, Stripped(old(d.root)));
    mergeCount := d.MergeRuns();
  }

  // ----- Tracked changes that only a proofErr keeps apart, in one child list

  // Going on from x, the first element that is no proofErr joins x, and there is a proofErr
  // before it, or `seen` says that one was passed already.
  predicate Meets(tag: Tag, x: Node, f: seq<Node>, seen: bool) {
    f != [] &&
    if f[0].Is(ProofErr) then Meets(tag, x, f[1..], true)
    else if Stops(Wrappers(tag), f[0]) then seen && Joins(Wrappers(tag), x, f[0])
    else Meets(tag, x, f[1..], seen)
  }

  predicate Hidden(tag: Tag, ns: seq<Node>, seen: bool) {
    ns != [] && (Meets(tag, ns[0], ns[1..], seen) || Hidden(tag, ns[1..], seen))
  }

  lemma {:induction false} OtherMeetsNone(tag: Tag, x: Node, f: seq<Node>, seen: bool)
    requires !x.Is(tag)
    ensures !Meets(tag, x, f, seen)
  {
    if f != [] {
      OtherMeetsNone(tag, x, f[1..], true);
      OtherMeetsNone(tag, x, f[1..], seen);
    }
  }

  lemma {:induction false} LonelyStripped(tag: Tag, x: Node, f: seq<Node>)
    requires IsChange(tag) && !x.Is(ProofErr)
    ensures Lonely(Wrappers(tag), Stripped(x), StrippedAll(f)) <==> !Meets(tag, x, f, true)
  {
    if f != [] {
      LonelyStripped(tag, x, f[1..]);
      if f[0].Is(ProofErr) {
        assert StrippedAll(f) == StrippedAll(f[1..]);
      } else {
        assert StrippedAll(f)[1..] == StrippedAll(f[1..]);
      }
    }
  }

  // Once stripped, a list has nothing to merge if nothing in it meets across proofErr or not.
  lemma {:induction false} SettledStripped(tag: Tag, ns: seq<Node>)
    requires IsChange(tag)
    ensures Settled(Wrappers(tag), StrippedAll(ns)) <==> !Hidden(tag, ns, true)
  {
    if ns != [] {
      SettledStripped(tag, ns[1..]);
      if ns[0].Is(ProofErr) {
        OtherMeetsNone(tag, ns[0], ns[1..], true);
        assert StrippedAll(ns) == StrippedAll(ns[1..]);
      } else {
        LonelyStripped(tag, ns[0], ns[1..]);
        assert StrippedAll(ns)[1..] == StrippedAll(ns[1..]);
      }
    }
  }

  lemma {:induction false} LonelyMeets(tag: Tag, x: Node, f: seq<Node>)
    requires Lonely(Wrappers(tag), x, f)
    ensures Meets(tag, x, f, true) == Meets(tag, x, f, false)
  {
    if f != [] && !Stops(Wrappers(tag), f[0]) {
      LonelyMeets(tag, x, f[1..]);
    }
  }

  // In a settled list, what could meet is kept apart by a proofErr.
  lemma {:induction false} SettledHides(tag: Tag, ns: seq<Node>)
    requires Settled(Wrappers(tag), ns)
    ensures Hidden(tag, ns, true) == Hidden(tag, ns, false)
  {
    if ns != [] {
      LonelyMeets(tag, ns[0], ns[1..]);
      SettledHides(tag, ns[1..]);
    }
  }

  lemma {:induction false} MeetsByKey(tag: Tag, a: Node, b: Node, f: seq<Node>, seen: bool)
    requires a.Elem? && b.Elem? && a.tag == b.tag && AuthorOrEmpty(a) == AuthorOrEmpty(b)
    ensures Meets(tag, a, f, seen) == Meets(tag, b, f, seen)
  {
    if f != [] {
      MeetsByKey(tag, a, b, f[1..], true);
      MeetsByKey(tag, a, b, f[1..], seen);
    }
  }

  // Loose characters, blank, and comments make no difference.
  lemma BlankSkipped(tag: Tag, z: Node, a: Node, y: Node, rest: seq<Node>, seen: bool)
    requires IsChange(tag) && !Stops(Wrappers(tag), y)
    ensures Meets(tag, z, [a, y] + rest, seen) == Meets(tag, z, [a] + rest, seen)
    ensures Hidden(tag, [a, y] + rest, seen) == Hidden(tag, [a] + rest, seen)
  {
    assert ([a, y] + rest)[1..] == [y] + rest && ([y] + rest)[1..] == rest && ([a] + rest)[1..] == rest;
    OtherMeetsNone(tag, y, rest, seen);
  }

  // Merging wrappers neither hides nor uncovers a pair.
  lemma {:induction false} MeetsPrepended(tag: Tag, merged: Tag, z: Node, x: Node, f: seq<Node>, seen: bool)
    requires IsChange(tag) && IsChange(merged)
    ensures Meets(tag, z, Prepend(Wrappers(merged), x, f), seen) == Meets(tag, z, [x] + f, seen)
  {
    if f != [] {
      if Stops(Wrappers(merged), f[0]) {
        MeetsPrependedHere(tag, merged, z, x, f, seen);
      } else {
        var g := Prepend(Wrappers(merged), x, f[1..]);
        MeetsPrepended(tag, merged, z, x, f[1..], seen);
        assert g == [g[0]] + g[1..];
        ConsBefore(x, f);
        BlankSkipped(tag, z, g[0], f[0], g[1..], seen);
        BlankSkipped(tag, z, x, f[0], f[1..], seen);
      }
    }
  }

  lemma MeetsPrependedHere(tag: Tag, merged: Tag, z: Node, x: Node, f: seq<Node>, seen: bool)
    requires IsChange(tag) && IsChange(merged) && f != [] && Stops(Wrappers(merged), f[0])
    ensures Meets(tag, z, Prepend(Wrappers(merged), x, f), seen) == Meets(tag, z, [x] + f, seen)
  {
    TailOfCons(x, f);
    if Joins(Wrappers(merged), x, f[0]) {
      TailOfCons(Join(Wrappers(merged), x, f[0]), f[1..]);
    }
  }

  lemma {:induction false} HiddenPrepended(tag: Tag, merged: Tag, x: Node, f: seq<Node>)
    requires IsChange(tag) && IsChange(merged)
    ensures Hidden(tag, Prepend(Wrappers(merged), x, f), false) == Hidden(tag, [x] + f, false)
  {
    if f != [] {
      if Stops(Wrappers(merged), f[0]) {
        HiddenPrependedHere(tag, merged, x, f);
      } else {
        var g := Prepend(Wrappers(merged), x, f[1..]);
        HiddenPrepended(tag, merged, x, f[1..]);
        assert g == [g[0]] + g[1..];
        ConsBefore(x, f);
        BlankSkipped(tag, x, g[0], f[0], g[1..], false);
        BlankSkipped(tag, x, x, f[0], f[1..], false);
      }
    }
  }

  lemma HiddenCons(tag: Tag, x: Node, f: seq<Node>, seen: bool)
    ensures Hidden(tag, [x] + f, seen) <==> Meets(tag, x, f, seen) || Hidden(tag, f, seen)
  {
    TailOfCons(x, f);
  }

  lemma HiddenPrependedHere(tag: Tag, merged: Tag, x: Node, f: seq<Node>)
    requires IsChange(tag) && IsChange(merged) && f != [] && Stops(Wrappers(merged), f[0])
    ensures Hidden(tag, Prepend(Wrappers(merged), x, f), false) == Hidden(tag, [x] + f, false)
  {
    if Joins(Wrappers(merged), x, f[0]) {
      HiddenCons(tag, x, f, false);
      HiddenCons(tag, Join(Wrappers(merged), x, f[0]), f[1..], false);
      MeetsByKey(tag, Join(Wrappers(merged), x, f[0]), f[0], f[1..], false);
    }
  }

  lemma {:induction false} MeetsFused(tag: Tag, merged: Tag, z: Node, ns: seq<Node>, seen: bool)
    requires IsChange(tag) && IsChange(merged)
    ensures Meets(tag, z, Fuse(Wrappers(merged), ns), seen) == Meets(tag, z, ns, seen)
  {
    if ns != [] {
      var f := Fuse(Wrappers(merged), ns[1..]);
      MeetsFused(tag, merged, z, ns[1..], true);
      MeetsFused(tag, merged, z, ns[1..], seen);
      MeetsPrepended(tag, merged, z, ns[0], f, seen);
      assert ([ns[0]] + f)[1..] == f;
    }
  }

  lemma {:induction false} HiddenFused(tag: Tag, merged: Tag, ns: seq<Node>)
    requires IsChange(tag) && IsChange(merged)
    ensures Hidden(tag, Fuse(Wrappers(merged), ns), false) == Hidden(tag, ns, false)
  {
    if ns != [] {
      var f := Fuse(Wrappers(merged), ns[1..]);
      HiddenFused(tag, merged, ns[1..]);
      MeetsFused(tag, merged, ns[0], ns[1..], false);
      HiddenPrepended(tag, merged, ns[0], f);
      assert ([ns[0]] + f)[1..] == f;
    }
  }

  // Merged and then stripped, a list has nothing to merge exactly when it hides no pair.
  lemma SettledAfterStripping(tag: Tag, ns: seq<Node>)
    requires IsChange(tag)
    ensures Settled(Wrappers(tag), StrippedAll(Local(Simplify, ns))) <==> !Hidden(tag, ns, false)
  {
    FuseBothSettles(ns);
    SettledStripped(tag, Local(Simplify, ns));
    SettledHides(tag, Local(Simplify, ns));
    HiddenFused(tag, Del, Fuse(Wrappers(Ins), ns));
    HiddenFused(tag, Ins, ns);
  }

  // ----- The same in a whole tree

  // Somewhere in a paragraph or cell, only proofErr elements, blanks and comments separate two
  // insertions or two deletions of one author, and at least one proofErr does.
  predicate Interrupted(n: Node) {
    n.Elem? &&
    ((n.tag in {P, Tc} && (Hidden(Ins, n.kids, false) || Hidden(Del, n.kids, false))) || InterruptedIn(n.kids))
  }

  predicate InterruptedIn(ns: seq<Node>) {
    ns != [] && (Interrupted(ns[0]) || InterruptedIn(ns[1..]))
  }

  // Two lists that differ only below their elements.
  predicate SameFaces(a: seq<Node>, b: seq<Node>) {
    |a| == |b| && forall i | 0 <= i < |a| :: SameFace(a[i], b[i])
  }

  predicate SameFace(x: Node, y: Node) {
    if x.Elem? then y.Elem? && x.tag == y.tag && x.attrs == y.attrs else x == y
  }

  lemma {:induction false} MeetsByFace(tag: Tag, x: Node, y: Node, a: seq<Node>, b: seq<Node>, seen: bool)
    requires SameFace(x, y) && SameFaces(a, b)
    ensures Meets(tag, x, a, seen) == Meets(tag, y, b, seen)
  {
    if a != [] {
      assert SameFace(a[0], b[0]);
      MeetsByFace(tag, x, y, a[1..], b[1..], true);
      MeetsByFace(tag, x, y, a[1..], b[1..], seen);
    }
  }

  lemma {:induction false} HiddenByFace(tag: Tag, a: seq<Node>, b: seq<Node>, seen: bool)
    requires SameFaces(a, b)
    ensures Hidden(tag, a, seen) == Hidden(tag, b, seen)
  {
    if a != [] {
      assert SameFace(a[0], b[0]);
      MeetsByFace(tag, a[0], b[0], a[1..], b[1..], seen);
      HiddenByFace(tag, a[1..], b[1..], seen);
    }
  }

  lemma {:induction false} LonelyByFace(tag: Tag, x: Node, y: Node, a: seq<Node>, b: seq<Node>)
    requires SameFace(x, y) && SameFaces(a, b)
    ensures Lonely(Wrappers(tag), x, a) == Lonely(Wrappers(tag), y, b)
  {
    if a != [] {
      assert SameFace(a[0], b[0]);
      LonelyByFace(tag, x, y, a[1..], b[1..]);
    }
  }

  lemma {:induction false} SettledByFace(tag: Tag, a: seq<Node>, b: seq<Node>)
    requires SameFaces(a, b)
    ensures Settled(Wrappers(tag), a) == Settled(Wrappers(tag), b)
  {
    if a != [] {
      assert SameFace(a[0], b[0]);
      LonelyByFace(tag, a[0], b[0], a[1..], b[1..]);
      SettledByFace(tag, a[1..], b[1..]);
    }
  }

  lemma {:induction false} EverywhereFaces(pass: Pass, ns: seq<Node>)
    ensures SameFaces(EverywhereAll(pass, ns), ns)
  {
    if ns != [] {
      EverywhereFaces(pass, ns[1..]);
    }
  }

  lemma {:induction false} MergeTextsFaces(ns: seq<Node>)
    ensures SameFaces(MergeTextsAll(ns), ns)
  {
    if ns != [] {
      MergeTextsFaces(ns[1..]);
    }
  }

  lemma ForallCons(p: Node -> bool, x: Node, rest: seq<Node>)
    ensures (forall n | n in [x] + rest :: p(n)) <==> p(x) && forall n | n in rest :: p(n)
  {
    assert x in [x] + rest && forall n | n in rest :: n in [x] + rest;
  }

  // What holds of every element of a list and is shared by the two halves of a merged element.
  lemma {:induction false} PrependSplits(rule: Rule, c: Node -> bool, p: Node -> bool, x: Node, f: seq<Node>)
    requires c(x) && forall n | n in f :: c(n)
    requires forall a, b {:trigger Join(rule, a, b)} ::
               Joins(rule, a, b) && c(a) && c(b) ==> c(Join(rule, a, b)) && (p(Join(rule, a, b)) <==> p(a) && p(b))
    ensures (forall n | n in Prepend(rule, x, f) :: p(n)) <==> p(x) && forall n | n in f :: p(n)
  {
    if f != [] {
      assert c(f[0]) && f == [f[0]] + f[1..];
      if Stops(rule, f[0]) {
        if Joins(rule, x, f[0]) {
          assert forall n :: n in Prepend(rule, x, f) <==> n == Join(rule, x, f[0]) || n in f[1..];
        }
      } else {
        var g := Prepend(rule, x, f[1..]);
        PrependSplits(rule, c, p, x, f[1..]);
        assert g == [g[0]] + g[1..];
        assert forall n :: n in Prepend(rule, x, f) <==> n == f[0] || n in g;
      }
    }
  }

  lemma {:induction false} FuseSplits(rule: Rule, c: Node -> bool, p: Node -> bool, ns: seq<Node>)
    requires forall n | n in ns :: c(n)
    requires forall a, b {:trigger Join(rule, a, b)} ::
               Joins(rule, a, b) && c(a) && c(b) ==> c(Join(rule, a, b)) && (p(Join(rule, a, b)) <==> p(a) && p(b))
    ensures (forall n | n in Fuse(rule, ns) :: p(n)) <==> forall n | n in ns :: p(n)
  {
    if ns != [] {
      assert c(ns[0]) && ns == [ns[0]] + ns[1..];
      FuseSplits(rule, c, p, ns[1..]);
      FuseKeeps(rule, c, ns[1..]);
      PrependSplits(rule, c, p, ns[0], Fuse(rule, ns[1..]));
    }
  }

  lemma {:induction false} StrippedAppend(a: seq<Node>, b: seq<Node>)
    ensures StrippedAll(a + b) == StrippedAll(a) + StrippedAll(b)
  {
    if a == [] {
      assert a + b == b;
    } else {
      var head := if a[0].Is(ProofErr) then [] else [Stripped(a[0])];
      TailOfSum(a, b);
      StrippedAppend(a[1..], b);
      Regrouped(head, StrippedAll(a[1..]), StrippedAll(b));
    }
  }

  ghost predicate NormalStripped(n: Node) {
    n.Is(ProofErr) || NormalTree(Simplify, Stripped(n))
  }

  lemma {:induction false} StrippedAllNormal(ns: seq<Node>)
    ensures (forall n | n in StrippedAll(ns) :: NormalTree(Simplify, n)) <==> forall n | n in ns :: NormalStripped(n)
  {
    if ns != [] {
      StrippedAllNormal(ns[1..]);
      assert ns == [ns[0]] + ns[1..];
      ForallCons(n => NormalStripped(n), ns[0], ns[1..]);
      ForallCons(n => NormalTree(Simplify, n), Stripped(ns[0]), StrippedAll(ns[1..]));
      if ns[0].Is(ProofErr) {
        assert StrippedAll(ns) == StrippedAll(ns[1..]);
      } else {
        assert StrippedAll(ns) == [Stripped(ns[0])] + StrippedAll(ns[1..]);
      }
    }
  }

  lemma LocalNormalStripped(ns: seq<Node>)
    ensures (forall n | n in Local(Simplify, ns) :: NormalStripped(n)) <==> forall n | n in ns :: NormalStripped(n)
  {
    forall tag, a, b | IsChange(tag) && Joins(Wrappers(tag), a, b)
      ensures NormalStripped(Join(Wrappers(tag), a, b)) <==> NormalStripped(a) && NormalStripped(b)
    {
      StrippedAppend(a.kids, b.kids);
    }
    FuseSplits(Wrappers(Ins), _ => true, n => NormalStripped(n), ns);
    FuseSplits(Wrappers(Del), _ => true, n => NormalStripped(n), Fuse(Wrappers(Ins), ns));
  }

  // Stripping a simplified document leaves tracked changes to merge exactly when the document is
  // interrupted.
  lemma {:induction false} InterruptedExactly(n: Node)
    requires Clean(n)
    ensures NormalTree(Simplify, Stripped(Simplified(n))) <==> !Interrupted(n)
  {
    if n.Elem? {
      var ks := EverywhereAll(Simplify, n.kids);
      InterruptedInExactly(n.kids);
      LocalNormalStripped(ks);
      StrippedAllNormal(Simplified(n).kids);
      if n.tag in {P, Tc} {
        EverywhereFaces(Simplify, n.kids);
        SettledAfterStripping(Ins, ks);
        SettledAfterStripping(Del, ks);
        HiddenByFace(Ins, ks, n.kids, false);
        HiddenByFace(Del, ks, n.kids, false);
      }
    }
  }

  lemma {:induction false} InterruptedInExactly(ns: seq<Node>)
    requires CleanAll(ns)
    ensures (forall n | n in EverywhereAll(Simplify, ns) :: NormalStripped(n)) <==> !InterruptedIn(ns)
  {
    if ns != [] {
      assert Clean(ns[0]);
      InterruptedInExactly(ns[1..]);
      if ns[0].Is(ProofErr) {
        assert !Interrupted(ns[0]);
      } else {
        InterruptedExactly(ns[0]);
      }
      ForallCons(n => NormalStripped(n), Simplified(ns[0]), EverywhereAll(Simplify, ns[1..]));
    }
  }

  // ----- Merging runs makes no difference to that

  lemma {:induction false} RunPrepended(tag: Tag, x: Node, f: seq<Node>)
    requires IsChange(tag) && x.Is(R)
    ensures Prepend(Runs, x, f)[0].Is(R)
    ensures Settled(Wrappers(tag), Prepend(Runs, x, f)[1..]) == Settled(Wrappers(tag), f)
  {
    if f != [] {
      if Stops(Runs, f[0]) {
        if Joins(Runs, x, f[0]) {
          OtherIsLonely(Wrappers(tag), f[0], f[1..]);
          assert Prepend(Runs, x, f)[1..] == f[1..];
        } else {
          assert ([x] + f)[1..] == f;
        }
      } else {
        var g := Prepend(Runs, x, f[1..]);
        RunPrepended(tag, x, f[1..]);
        OtherIsLonely(Wrappers(tag), f[0], f[1..]);
        OtherIsLonely(Wrappers(tag), f[0], g[1..]);
        assert ([g[0], f[0]] + g[1..])[1..] == [f[0]] + g[1..] && ([f[0]] + g[1..])[1..] == g[1..];
      }
    }
  }

  lemma {:induction false} LonelyRunsFused(tag: Tag, z: Node, ns: seq<Node>)
    requires IsChange(tag)
    ensures Lonely(Wrappers(tag), z, Fuse(Runs, ns)) == Lonely(Wrappers(tag), z, ns)
  {
    if ns != [] {
      LonelyRunsFused(tag, z, ns[1..]);
      var f := Fuse(Runs, ns[1..]);
      if ns[0].Is(R) {
        RunPrepended(tag, ns[0], f);
      } else {
        PrependOther(Runs, ns[0], f);
        assert ([ns[0]] + f)[1..] == f;
      }
    }
  }

  lemma {:induction false} SettledRunsFused(tag: Tag, ns: seq<Node>)
    requires IsChange(tag)
    ensures Settled(Wrappers(tag), Fuse(Runs, ns)) == Settled(Wrappers(tag), ns)
  {
    if ns != [] {
      SettledRunsFused(tag, ns[1..]);
      var f := Fuse(Runs, ns[1..]);
      if ns[0].Is(R) {
        RunPrepended(tag, ns[0], f);
        OtherIsLonely(Wrappers(tag), ns[0], ns[1..]);
        OtherIsLonely(Wrappers(tag), Fuse(Runs, ns)[0], Fuse(Runs, ns)[1..]);
      } else {
        LonelyRunsFused(tag, ns[0], ns[1..]);
        PrependOther(Runs, ns[0], f);
        assert ([ns[0]] + f)[1..] == f;
      }
    }
  }

  lemma SettledFuseRuns(tag: Tag, ns: seq<Node>)
    requires IsChange(tag)
    ensures Settled(Wrappers(tag), FuseRuns(ns)) == Settled(Wrappers(tag), ns)
  {
    SettledRunsFused(tag, ns);
    MergeTextsFaces(Fuse(Runs, ns));
    SettledByFace(tag, FuseRuns(ns), Fuse(Runs, ns));
  }

  lemma {:induction false} BareIsNormal(n: Node)
    requires Bare(n)
    ensures NormalTree(Simplify, n)
  {
    if n.Elem? {
      forall k | k in n.kids
        ensures NormalTree(Simplify, k)
      {
        BareIsNormal(k);
      }
    }
  }

  lemma {:induction false} MovedNormal(ns: seq<Node>)
    requires CleanAll(ns)
    ensures (forall n | n in Moved(ns) :: NormalTree(Simplify, n)) <==> forall n | n in ns :: NormalTree(Simplify, n)
  {
    if ns != [] {
      MovedNormal(ns[1..]);
      assert Clean(ns[0]) && ns == [ns[0]] + ns[1..];
      ForallCons(n => NormalTree(Simplify, n), ns[0], ns[1..]);
      ForallCons(n => NormalTree(Simplify, n), ns[0], Moved(ns[1..]));
      if ns[0].IsElement() && !ns[0].Is(RPr) {
        assert Moved(ns) == [ns[0]] + Moved(ns[1..]);
      } else if ns[0].Is(RPr) {
        forall k | k in ns[0].kids
          ensures NormalTree(Simplify, k)
        {
          BareIsNormal(k);
        }
      }
    }
  }

  lemma RunsFusedNormal(ns: seq<Node>)
    requires CleanAll(ns)
    ensures (forall n | n in Fuse(Runs, ns) :: NormalTree(Simplify, n)) <==> forall n | n in ns :: NormalTree(Simplify, n)
  {
    forall a, b | Joins(Runs, a, b) && Clean(a) && Clean(b)
      ensures Clean(Join(Runs, a, b))
      ensures NormalTree(Simplify, Join(Runs, a, b)) <==> NormalTree(Simplify, a) && NormalTree(Simplify, b)
    {
      JoinClean(Runs, a, b);
      MovedNormal(b.kids);
      assert forall n :: n in Join(Runs, a, b).kids <==> n in a.kids || n in Moved(b.kids);
    }
    FuseSplits(Runs, n => Clean(n), n => NormalTree(Simplify, n), ns);
  }

  lemma {:induction false} MergeTextsNormalAlike(ns: seq<Node>)
    ensures (forall n | n in MergeTextsAll(ns) :: NormalTree(Simplify, n)) <==>
            forall n | n in ns :: NormalTree(Simplify, n)
  {
    if ns != [] {
      MergeTextsNormalAlike(ns[1..]);
      assert ns == [ns[0]] + ns[1..];
      if ns[0].Is(R) {
        FuseSplits(Texts, _ => true, n => NormalTree(Simplify, n), ns[0].kids);
      }
      assert NormalTree(Simplify, MergeTexts(ns[0])) <==> NormalTree(Simplify, ns[0]);
      ForallCons(n => NormalTree(Simplify, n), ns[0], ns[1..]);
      ForallCons(n => NormalTree(Simplify, n), MergeTexts(ns[0]), MergeTextsAll(ns[1..]));
    }
  }

  lemma {:induction false} MergingRunsIsNeutral(n: Node)
    requires Clean(n)
    ensures NormalTree(Simplify, Everywhere(MergeRuns, n)) <==> NormalTree(Simplify, n)
  {
    if n.Elem? {
      var ks := EverywhereAll(MergeRuns, n.kids);
      MergingRunsInIsNeutral(n.kids);
      RunsFusedNormal(ks);
      MergeTextsNormalAlike(Fuse(Runs, ks));
      EverywhereFaces(MergeRuns, n.kids);
      SettledFuseRuns(Ins, ks);
      SettledFuseRuns(Del, ks);
      SettledByFace(Ins, ks, n.kids);
      SettledByFace(Del, ks, n.kids);
    }
  }

  lemma {:induction false} MergingRunsInIsNeutral(ns: seq<Node>)
    requires CleanAll(ns)
    ensures CleanAll(EverywhereAll(MergeRuns, ns))
    ensures (forall n | n in EverywhereAll(MergeRuns, ns) :: NormalTree(Simplify, n)) <==>
            forall n | n in ns :: NormalTree(Simplify, n)
  {
    if ns != [] {
      assert Clean(ns[0]) && ns == [ns[0]] + ns[1..];
      MergingRunsIsNeutral(ns[0]);
      EverywhereClean(MergeRuns, ns[0]);
      MergingRunsInIsNeutral(ns[1..]);
      ForallCons(n => NormalTree(Simplify, n), ns[0], ns[1..]);
      ForallCons(n => NormalTree(Simplify, n), Everywhere(MergeRuns, ns[0]), EverywhereAll(MergeRuns, ns[1..]));
    }
  }

  // ----- Unpacking twice

  lemma UnpackedNormal(root: Node)
    requires Clean(root)
    ensures NormalTree(Simplify, Unpacked(root)) <==> !Interrupted(root)
  {
    EverywhereClean(Simplify, root);
    StrippedClean(Simplified(root));
    InterruptedExactly(root);
    MergingRunsIsNeutral(Stripped(Simplified(root)));
  }

  lemma {:induction false} ScrubbedHidesNone(tag: Tag, ns: seq<Node>)
    requires forall n | n in ns :: !n.Is(ProofErr)
    ensures !Hidden(tag, ns, false)
  {
    if ns != [] {
      assert ns == [ns[0]] + ns[1..];
      ScrubbedMeetsNone(tag, ns[0], ns[1..]);
      ScrubbedHidesNone(tag, ns[1..]);
    }
  }

  lemma {:induction false} ScrubbedMeetsNone(tag: Tag, x: Node, f: seq<Node>)
    requires forall n | n in f :: !n.Is(ProofErr)
    ensures !Meets(tag, x, f, false)
  {
    if f != [] {
      assert f == [f[0]] + f[1..];
      ScrubbedMeetsNone(tag, x, f[1..]);
    }
  }

  lemma {:induction false} ScrubbedIsUninterrupted(n: Node)
    requires Scrubbed(n)
    ensures !Interrupted(n)
  {
    if n.Elem? {
      ScrubbedHidesNone(Ins, n.kids);
      ScrubbedHidesNone(Del, n.kids);
      ScrubbedAllUninterrupted(n.kids);
    }
  }

  lemma {:induction false} ScrubbedAllUninterrupted(ns: seq<Node>)
    requires forall n | n in ns :: Scrubbed(n)
    ensures !InterruptedIn(ns)
  {
    if ns != [] {
      ScrubbedIsUninterrupted(ns[0]);
      ScrubbedAllUninterrupted(ns[1..]);
    }
  }

  lemma UnpackedKeeps(root: Node)
    requires Clean(root) && !root.Is(R)
    ensures Clean(Unpacked(root)) && !Unpacked(root).Is(R)
    ensures !Interrupted(Unpacked(root)) && RunsMerged(Unpacked(root)) == Unpacked(root)
  {
    EverywhereClean(Simplify, root);
    StrippedClean(Simplified(root));
    EverywhereClean(MergeRuns, Stripped(Simplified(root)));
    RunsMergedScrubbed(Simplified(root));
    ScrubbedIsUninterrupted(Unpacked(root));
    MergeRunsIsIdempotent(Simplified(root));
  }

  // Unpacking an unpacked document changes nothing if and only if the document was not
  // interrupted.
  lemma UnpackingTwice(root: Node)
    requires Clean(root) && !root.Is(R)
    ensures Unpacked(Unpacked(root)) == Unpacked(root) <==> !Interrupted(root)
  {
    UnpackedKeeps(root);
    UnpackedNormal(root);
    UnpackedNormal(Unpacked(root));
    if !Interrupted(root) {
      NormalIsFixed(Simplify, Unpacked(root));
    }
  }

  // A third time never changes anything.
  lemma UnpackingThreeTimes(root: Node)
    requires Clean(root) && !root.Is(R)
    ensures Unpacked(Unpacked(Unpacked(root))) == Unpacked(Unpacked(root))
  {
    UnpackedKeeps(root);
    UnpackingTwice(Unpacked(root));
  }

  // <p><ins A>x</ins><proofErr/><ins A>y</ins></p>
  function ProofErrDoc(): Node {
    Elem(0, Other("document"), [],
      [Elem(1, P, [], [Elem(2, Ins, [(AUTHOR, "A")], [Elem(3, R, [], [TextElem(T, "x", None)])]),
                       Elem(4, ProofErr, [], []),
                       Elem(5, Ins, [(AUTHOR, "A")], [Elem(6, R, [], [TextElem(T, "y", None)])])])])
  }

  lemma ProofErrDelaysMerging()
    ensures Clean(ProofErrDoc()) && !ProofErrDoc().Is(R)
    ensures Unpacked(Unpacked(ProofErrDoc())) != Unpacked(ProofErrDoc())
  {
    var x, e, y := ProofErrDoc().kids[0].kids[0], ProofErrDoc().kids[0].kids[1], ProofErrDoc().kids[0].kids[2];
    assert Clean(x) && Clean(y) by {
      assert Clean(x.kids[0]) && Clean(y.kids[0]);
    }
    assert Clean(ProofErrDoc().kids[0]);
    assert [x, e, y][1..] == [e, y] && [e, y][1..] == [y];
    assert Author(x) == Some("A") == Author(y);
    assert Joins(Wrappers(Ins), x, y);
    assert Meets(Ins, x, [y], true);
    assert Meets(Ins, x, [e, y], false);
    assert Interrupted(ProofErrDoc().kids[0]);
    UnpackingTwice(ProofErrDoc());
  }
}
