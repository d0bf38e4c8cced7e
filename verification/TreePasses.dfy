/** The two tree passes that unpacking runs over document.xml. Each remembers a collection of
    containers and coalesces their child lists in place, one container after another.

    `Rewrite(pass, ids, n)` is the tree once the containers named in `ids` are done. */
module TreePasses {
  import opened DocxTree
  import opened Options
  import opened Sequences
  import opened Coalesce

  datatype Pass = Simplify | MergeRuns

  // simplify_redlines works on paragraphs and table cells, merge_runs on any parent of a run.
  predicate Site(pass: Pass, n: Node) {
    n.Elem? && (pass == Simplify ==> n.tag in {P, Tc})
  }

  // Only merging runs asks something of the document.
  ghost predicate Suits(pass: Pass, n: Node) {
    pass == MergeRuns ==> Clean(n)
  }

  ghost predicate SuitsAll(pass: Pass, ns: seq<Node>) {
    pass == MergeRuns ==> CleanAll(ns)
  }

  function Local(pass: Pass, ns: seq<Node>): seq<Node> {
    match pass
    case Simplify => Fuse(Wrappers(Del), Fuse(Wrappers(Ins), ns))
    case MergeRuns => FuseRuns(ns)
  }

  function Rewrite(pass: Pass, ids: set<nat>, n: Node): Node {
    if !n.Elem? then n
    else
      var ks := RewriteAll(pass, ids, n.kids);
      n.(kids := if n.id in ids && Site(pass, n) then Local(pass, ks) else ks)
  }

  function RewriteAll(pass: Pass, ids: set<nat>, ns: seq<Node>): seq<Node> {
    if ns == [] then [] else [Rewrite(pass, ids, ns[0])] + RewriteAll(pass, ids, ns[1..])
  }

  // The containers a pass collects before it changes anything.
  function SiteIds(pass: Pass, n: Node): set<nat> {
    if !n.Elem? then {}
    else (if IsContainer(pass, n) then {n.id} else {}) + SiteIdsAll(pass, n.kids)
  }

  function SiteIdsAll(pass: Pass, ns: seq<Node>): set<nat> {
    if ns == [] then {} else SiteIds(pass, ns[0]) + SiteIdsAll(pass, ns[1..])
  }

  predicate IsContainer(pass: Pass, n: Node)
    requires n.Elem?
  {
    match pass
    case Simplify => Site(Simplify, n)
    case MergeRuns => exists i | 0 <= i < |n.kids| :: n.kids[i].Is(R)
  }

  // ----- Rewriting below a child list

  lemma {:induction false} RewriteAllAt(pass: Pass, ids: set<nat>, ns: seq<Node>)
    ensures |RewriteAll(pass, ids, ns)| == |ns|
    ensures forall i | 0 <= i < |ns| :: RewriteAll(pass, ids, ns)[i] == Rewrite(pass, ids, ns[i])
  {
    if ns != [] {
      RewriteAllAt(pass, ids, ns[1..]);
    }
  }

  lemma {:induction false} RewriteAppend(pass: Pass, ids: set<nat>, a: seq<Node>, b: seq<Node>)
    ensures RewriteAll(pass, ids, a + b) == RewriteAll(pass, ids, a) + RewriteAll(pass, ids, b)
  {
    if a == [] {
      assert a + b == b;
    } else {
      assert (a + b)[1..] == a[1..] + b;
      RewriteAppend(pass, ids, a[1..], b);
    }
  }

  lemma RewriteKind(pass: Pass, ids: set<nat>, n: Node)
    ensures var m := Rewrite(pass, ids, n);
            (m.Elem? <==> n.Elem?) && (n.Elem? ==> m.id == n.id && m.tag == n.tag && m.attrs == n.attrs) &&
            (!n.Elem? ==> m == n)
  {
  }

  lemma {:induction false} BareUntouched(pass: Pass, ids: set<nat>, n: Node)
    requires Bare(n)
    ensures Rewrite(pass, ids, n) == n
  {
    if n.Elem? {
      BareAllUntouched(pass, ids, n.kids);
      if pass == MergeRuns {
        forall k | 0 <= k < |n.kids|
          ensures !n.kids[k].Is(R)
        {
          assert Bare(n.kids[k]);
        }
        FuseRunsOfNone(n.kids);
      }
    }
  }

  lemma {:induction false} BareAllUntouched(pass: Pass, ids: set<nat>, ns: seq<Node>)
    requires forall n | n in ns :: Bare(n)
    ensures RewriteAll(pass, ids, ns) == ns
  {
    if ns != [] {
      BareUntouched(pass, ids, ns[0]);
      BareAllUntouched(pass, ids, ns[1..]);
    }
  }

  lemma {:induction false} PropsUntouched(pass: Pass, ids: set<nat>, ns: seq<Node>)
    requires CleanAll(ns)
    ensures PropsOf(RewriteAll(pass, ids, ns)) == PropsOf(ns)
  {
    if ns != [] {
      assert Clean(ns[0]);
      PropsUntouched(pass, ids, ns[1..]);
      if ns[0].Is(RPr) {
        BareUntouched(pass, ids, ns[0]);
      }
    }
  }

  lemma {:induction false} RewriteMoved(pass: Pass, ids: set<nat>, ns: seq<Node>)
    ensures RewriteAll(pass, ids, Moved(ns)) == Moved(RewriteAll(pass, ids, ns))
  {
    if ns != [] {
      RewriteMoved(pass, ids, ns[1..]);
      RewriteKind(pass, ids, ns[0]);
      if ns[0].IsElement() && !ns[0].Is(RPr) {
        assert Moved(ns)[1..] == Moved(ns[1..]);
      }
    }
  }

  // A clean run is no container of runs, so only what is below its children changes.
  lemma RewriteRun(ids: set<nat>, r: Node)
    requires r.Is(R) && forall k | k in r.kids :: !k.Is(R)
    ensures Rewrite(MergeRuns, ids, r) == r.(kids := RewriteAll(MergeRuns, ids, r.kids))
  {
    NoRunsBelow(MergeRuns, ids, r.kids);
    FuseRunsOfNone(RewriteAll(MergeRuns, ids, r.kids));
  }

  lemma {:induction false} NoRunsBelow(pass: Pass, ids: set<nat>, ns: seq<Node>)
    requires forall k | k in ns :: !k.Is(R)
    ensures forall k | k in RewriteAll(pass, ids, ns) :: !k.Is(R)
  {
    if ns != [] {
      assert !ns[0].Is(R);
      NoRunsBelow(pass, ids, ns[1..]);
    }
  }

  // ----- Coalescing a list commutes with rewriting below it

  predicate Fits(pass: Pass, rule: Rule) {
    match pass
    case Simplify => rule == Wrappers(Ins) || rule == Wrappers(Del)
    case MergeRuns => rule == Runs || rule == Texts
  }

  lemma RewriteJoins(pass: Pass, ids: set<nat>, rule: Rule, a: Node, b: Node)
    requires Fits(pass, rule) && Suits(pass, a) && Suits(pass, b)
    ensures Joins(rule, Rewrite(pass, ids, a), Rewrite(pass, ids, b)) == Joins(rule, a, b)
    ensures Stops(rule, Rewrite(pass, ids, a)) == Stops(rule, a)
    ensures Joins(rule, a, b) ==> Rewrite(pass, ids, Join(rule, a, b)) ==
                                  Join(rule, Rewrite(pass, ids, a), Rewrite(pass, ids, b))
  {
    RewriteKind(pass, ids, a);
    RewriteKind(pass, ids, b);
    match rule
    case Wrappers(_) =>
      if Joins(rule, a, b) {
        RewriteAppend(pass, ids, a.kids, b.kids);
      }
    case Runs =>
      if a.Is(R) && b.Is(R) {
        RunsRewriteJoins(ids, a, b);
      }
    case Texts =>
  }

  lemma RunsRewriteJoins(ids: set<nat>, a: Node, b: Node)
    requires Clean(a) && Clean(b) && a.Is(R) && b.Is(R)
    ensures Joins(Runs, Rewrite(MergeRuns, ids, a), Rewrite(MergeRuns, ids, b)) == Joins(Runs, a, b)
    ensures Rewrite(MergeRuns, ids, Join(Runs, a, b)) ==
            Join(Runs, Rewrite(MergeRuns, ids, a), Rewrite(MergeRuns, ids, b))
  {
    RewriteRun(ids, a);
    RewriteRun(ids, b);
    PropsUntouched(MergeRuns, ids, a.kids);
    PropsUntouched(MergeRuns, ids, b.kids);
    MovedFrom(b.kids);
    RewriteRun(ids, Join(Runs, a, b));
    RewriteAppend(MergeRuns, ids, a.kids, Moved(b.kids));
    RewriteMoved(MergeRuns, ids, b.kids);
  }

  lemma {:induction false} RewritePrepend(pass: Pass, ids: set<nat>, rule: Rule, x: Node, f: seq<Node>)
    requires Fits(pass, rule) && Suits(pass, x) && SuitsAll(pass, f)
    ensures RewriteAll(pass, ids, Prepend(rule, x, f)) ==
            Prepend(rule, Rewrite(pass, ids, x), RewriteAll(pass, ids, f))
  {
    if f == [] {
      assert [x][1..] == [];
    } else {
      assert Suits(pass, f[0]);
      RewriteJoins(pass, ids, rule, f[0], f[0]);
      if Stops(rule, f[0]) {
        RewritePrependHere(pass, ids, rule, x, f);
      } else {
        RewritePrepend(pass, ids, rule, x, f[1..]);
        RewriteSwap(pass, ids, Prepend(rule, x, f[1..]), f[0]);
      }
    }
  }

  lemma RewriteSwap(pass: Pass, ids: set<nat>, g: seq<Node>, y: Node)
    requires g != []
    ensures var h := RewriteAll(pass, ids, g);
            h != [] && RewriteAll(pass, ids, [g[0], y] + g[1..]) == [h[0], Rewrite(pass, ids, y)] + h[1..]
  {
    var x, t := Rewrite(pass, ids, g[0]), RewriteAll(pass, ids, g[1..]);
    assert RewriteAll(pass, ids, g) == [x] + t;
    RewriteTwo(pass, ids, g[0], y, g[1..]);
    TailOfCons(x, t);
  }

  lemma RewriteTwo(pass: Pass, ids: set<nat>, x: Node, y: Node, rest: seq<Node>)
    ensures RewriteAll(pass, ids, [x, y] + rest) == [Rewrite(pass, ids, x), Rewrite(pass, ids, y)] + RewriteAll(pass, ids, rest)
  {
    assert [x, y] + rest == [x] + ([y] + rest);
    RewriteCons(pass, ids, x, [y] + rest);
    RewriteCons(pass, ids, y, rest);
  }

  lemma RewriteCons(pass: Pass, ids: set<nat>, x: Node, rest: seq<Node>)
    ensures RewriteAll(pass, ids, [x] + rest) == [Rewrite(pass, ids, x)] + RewriteAll(pass, ids, rest)
  {
    assert ([x] + rest)[1..] == rest;
  }

  lemma RewritePrependHere(pass: Pass, ids: set<nat>, rule: Rule, x: Node, f: seq<Node>)
    requires Fits(pass, rule) && f != [] && Suits(pass, x) && Suits(pass, f[0]) && Stops(rule, f[0])
    ensures RewriteAll(pass, ids, Prepend(rule, x, f)) ==
            Prepend(rule, Rewrite(pass, ids, x), RewriteAll(pass, ids, f))
  {
    RewriteJoins(pass, ids, rule, f[0], f[0]);
    RewriteJoins(pass, ids, rule, x, f[0]);
    if Joins(rule, x, f[0]) {
      assert Prepend(rule, x, f)[1..] == f[1..];
    } else {
      assert ([x] + f)[1..] == f;
    }
  }

  lemma {:induction false} RewriteFuse(pass: Pass, ids: set<nat>, rule: Rule, ns: seq<Node>)
    requires Fits(pass, rule) && SuitsAll(pass, ns)
    ensures RewriteAll(pass, ids, Fuse(rule, ns)) == Fuse(rule, RewriteAll(pass, ids, ns))
  {
    if ns != [] {
      assert Suits(pass, ns[0]);
      RewriteFuse(pass, ids, rule, ns[1..]);
      if pass == MergeRuns {
        FuseClean(rule, ns[1..]);
      }
      RewritePrepend(pass, ids, rule, ns[0], Fuse(rule, ns[1..]));
    }
  }

  lemma {:induction false} RewriteMergeTexts(ids: set<nat>, ns: seq<Node>)
    requires CleanAll(ns)
    ensures RewriteAll(MergeRuns, ids, MergeTextsAll(ns)) == MergeTextsAll(RewriteAll(MergeRuns, ids, ns))
  {
    if ns != [] {
      RewriteMergeTexts(ids, ns[1..]);
      var r := ns[0];
      assert Clean(r);
      if r.Is(R) {
        RewriteRun(ids, r);
        FuseKeeps(Texts, (n: Node) => !n.Is(R), r.kids);
        RewriteRun(ids, MergeTexts(r));
        RewriteFuse(MergeRuns, ids, Texts, r.kids);
      }
    }
  }

  lemma RewriteLocal(pass: Pass, ids: set<nat>, ns: seq<Node>)
    requires SuitsAll(pass, ns)
    ensures RewriteAll(pass, ids, Local(pass, ns)) == Local(pass, RewriteAll(pass, ids, ns))
  {
    match pass
    case Simplify =>
      RewriteFuse(pass, ids, Wrappers(Ins), ns);
      RewriteFuse(pass, ids, Wrappers(Del), Fuse(Wrappers(Ins), ns));
    case MergeRuns =>
      RewriteFuse(pass, ids, Runs, ns);
      FuseClean(Runs, ns);
      RewriteMergeTexts(ids, Fuse(Runs, ns));
  }

  lemma LocalClean(pass: Pass, ns: seq<Node>)
    requires CleanAll(ns)
    ensures CleanAll(Local(pass, ns))
  {
    match pass
    case Simplify =>
      FuseClean(Wrappers(Ins), ns);
      FuseClean(Wrappers(Del), Fuse(Wrappers(Ins), ns));
    case MergeRuns =>
      FuseRunsClean(ns);
  }

  lemma LocalIdempotent(pass: Pass, ns: seq<Node>)
    ensures Local(pass, Local(pass, ns)) == Local(pass, ns)
  {
    match pass
    case Simplify =>
      FuseBothSettles(ns);
      SettledIsFixed(Wrappers(Ins), Local(pass, ns));
      SettledIsFixed(Wrappers(Del), Local(pass, ns));
    case MergeRuns =>
      FuseRunsSettles(ns);
      FuseRunsFixed(FuseRuns(ns));
  }

  lemma {:induction false} RewriteClean(pass: Pass, ids: set<nat>, n: Node)
    requires Clean(n)
    ensures Clean(Rewrite(pass, ids, n))
  {
    if n.Elem? {
      if n.tag == RPr {
        BareUntouched(pass, ids, n);
      } else {
        RewriteAllClean(pass, ids, n.kids);
        var ks := RewriteAll(pass, ids, n.kids);
        LocalClean(pass, ks);
        if n.tag == R {
          NoRunsBelow(pass, ids, n.kids);
          if pass == MergeRuns {
            RewriteRun(ids, n);
          }
        } else if n.tag == ProofErr && pass == MergeRuns {
          FuseRunsOfNone(ks);
        }
      }
    }
  }

  lemma {:induction false} RewriteAllClean(pass: Pass, ids: set<nat>, ns: seq<Node>)
    requires CleanAll(ns)
    ensures CleanAll(RewriteAll(pass, ids, ns))
  {
    if ns != [] {
      assert Clean(ns[0]);
      RewriteClean(pass, ids, ns[0]);
      RewriteAllClean(pass, ids, ns[1..]);
    }
  }

  lemma RewriteAllSuits(pass: Pass, ids: set<nat>, ns: seq<Node>)
    requires SuitsAll(pass, ns)
    ensures SuitsAll(pass, RewriteAll(pass, ids, ns))
  {
    if pass == MergeRuns {
      RewriteAllClean(pass, ids, ns);
    }
  }

  // ----- Containers can be taken in any order, in any number of batches

  lemma {:induction false} RewriteCompose(pass: Pass, s: set<nat>, t: set<nat>, n: Node)
    requires Suits(pass, n)
    ensures Rewrite(pass, t, Rewrite(pass, s, n)) == Rewrite(pass, s + t, n)
  {
    if n.Elem? {
      RewriteComposeAll(pass, s, t, n.kids);
      var ks := RewriteAll(pass, s, n.kids);
      if n.id in s && Site(pass, n) {
        RewriteAllSuits(pass, s, n.kids);
        RewriteLocal(pass, t, ks);
        LocalIdempotent(pass, RewriteAll(pass, s + t, n.kids));
      }
    }
  }

  lemma {:induction false} RewriteComposeAll(pass: Pass, s: set<nat>, t: set<nat>, ns: seq<Node>)
    requires SuitsAll(pass, ns)
    ensures RewriteAll(pass, t, RewriteAll(pass, s, ns)) == RewriteAll(pass, s + t, ns)
  {
    if ns != [] {
      assert Suits(pass, ns[0]);
      RewriteCompose(pass, s, t, ns[0]);
      RewriteComposeAll(pass, s, t, ns[1..]);
    }
  }

  // ----- The reader's view is kept

  // What a pass keeps: merging runs keeps everything. Merging wrappers does not keep apart an
  // absent author and an empty one, and keeps the formats of a document that is clean.
  ghost predicate Keeps(s: Sight, pass: Pass, n: Node) {
    match pass
    case Simplify => !s.Sharp? && (s.NoFormats? || Clean(n))
    case MergeRuns => Clean(n)
  }

  ghost predicate KeepsAll(s: Sight, pass: Pass, ns: seq<Node>) {
    forall n | n in ns :: Keeps(s, pass, n)
  }

  lemma LocalView(s: Sight, pass: Pass, ns: seq<Node>, marks: seq<Mark>)
    requires SuitsAll(pass, ns) && (pass == Simplify ==> !s.Sharp?)
    ensures Alike(s, ViewAll(Local(pass, ns), marks), ViewAll(ns, marks))
  {
    match pass
    case Simplify =>
      FuseView(s, Wrappers(Ins), ns, marks);
      FuseView(s, Wrappers(Del), Fuse(Wrappers(Ins), ns), marks);
    case MergeRuns =>
      FuseRunsView(ns, marks);
  }

  // A pass does not change the format of a clean run.
  lemma FormatRewritten(s: Sight, pass: Pass, ids: set<nat>, n: Node)
    requires n.Elem? && Keeps(s, pass, n)
    ensures SameMark(s, Rewrite(pass, ids, n), n)
  {
    if n.tag == R && !s.NoFormats? {
      PropsUntouched(pass, ids, n.kids);
      if pass == MergeRuns {
        RewriteRun(ids, n);
      }
    }
  }

  lemma {:induction false} RewriteView(s: Sight, pass: Pass, ids: set<nat>, n: Node, marks: seq<Mark>)
    requires Keeps(s, pass, n)
    ensures Alike(s, ViewOf(Rewrite(pass, ids, n), marks), ViewOf(n, marks))
  {
    if n.Elem? {
      var m := Rewrite(pass, ids, n);
      var below, below' := MarksBelow(n, marks), MarksBelow(m, marks);
      assert KeepsAll(s, pass, n.kids);
      RewriteAllView(s, pass, ids, n.kids, below);
      RewriteAllSuits(pass, ids, n.kids);
      LocalView(s, pass, RewriteAll(pass, ids, n.kids), below);
      FormatRewritten(s, pass, ids, n);
      BlurBelow(s, m, marks, n, marks);
      BlurViewAll(s, m.kids, below', below);
      AlikeFramed(s, m, marks, ViewAll(m.kids, below'), n, marks, ViewAll(n.kids, below));
    }
  }

  lemma {:induction false} RewriteAllView(s: Sight, pass: Pass, ids: set<nat>, ns: seq<Node>, marks: seq<Mark>)
    requires KeepsAll(s, pass, ns)
    ensures Alike(s, ViewAll(RewriteAll(pass, ids, ns), marks), ViewAll(ns, marks))
  {
    if ns != [] {
      var n, rest := Rewrite(pass, ids, ns[0]), RewriteAll(pass, ids, ns[1..]);
      assert Keeps(s, pass, ns[0]);
      RewriteView(s, pass, ids, ns[0], marks);
      RewriteAllView(s, pass, ids, ns[1..], marks);
      AlikeThen(s, ViewOf(n, marks), ViewOf(ns[0], marks), ViewAll(rest, marks), ViewAll(ns[1..], marks));
    }
  }

  // ----- The finished tree

  function Everywhere(pass: Pass, n: Node): Node {
    if !n.Elem? then n
    else
      var ks := EverywhereAll(pass, n.kids);
      n.(kids := if Site(pass, n) then Local(pass, ks) else ks)
  }

  function EverywhereAll(pass: Pass, ns: seq<Node>): seq<Node> {
    if ns == [] then [] else [Everywhere(pass, ns[0])] + EverywhereAll(pass, ns[1..])
  }

  // The collected containers are enough: elsewhere there is nothing to coalesce.
  lemma {:induction false} SitesSuffice(pass: Pass, ids: set<nat>, n: Node)
    requires Suits(pass, n) && SiteIds(pass, n) <= ids
    ensures Rewrite(pass, ids, n) == Everywhere(pass, n)
  {
    if n.Elem? {
      SitesSufficeAll(pass, ids, n.kids);
      if pass == MergeRuns && n.id !in ids {
        RewriteAllAt(pass, ids, n.kids);
        FuseRunsOfNone(RewriteAll(pass, ids, n.kids));
      }
    }
  }

  lemma {:induction false} SitesSufficeAll(pass: Pass, ids: set<nat>, ns: seq<Node>)
    requires SuitsAll(pass, ns) && SiteIdsAll(pass, ns) <= ids
    ensures RewriteAll(pass, ids, ns) == EverywhereAll(pass, ns)
  {
    if ns != [] {
      assert Suits(pass, ns[0]);
      SitesSuffice(pass, ids, ns[0]);
      SitesSufficeAll(pass, ids, ns[1..]);
    }
  }

  // No container of the tree has anything left to merge.
  ghost predicate NormalTree(pass: Pass, n: Node) {
    n.Elem? ==>
      && (forall k | k in n.kids :: NormalTree(pass, k))
      && match pass
         case Simplify => n.tag in {P, Tc} ==> Settled(Wrappers(Ins), n.kids) && Settled(Wrappers(Del), n.kids)
         case MergeRuns => Settled(Runs, n.kids) && (n.tag == R ==> Settled(Texts, n.kids))
  }

  // ... apart from the texts of n itself, when n is a run.
  ghost predicate NormalBelow(pass: Pass, n: Node) {
    n.Elem? ==>
      && (forall k | k in n.kids :: NormalTree(pass, k))
      && match pass
         case Simplify => n.tag in {P, Tc} ==> Settled(Wrappers(Ins), n.kids) && Settled(Wrappers(Del), n.kids)
         case MergeRuns => Settled(Runs, n.kids) && (n.tag == R ==> forall k | k in n.kids :: !k.Is(R))
  }

  lemma {:induction false} NoRunsSettled(ns: seq<Node>)
    requires forall k | k in ns :: !k.Is(R)
    ensures Settled(Runs, ns)
  {
    if ns != [] {
      NoRunsSettled(ns[1..]);
      assert !ns[0].Is(R);
      OtherIsLonely(Runs, ns[0], ns[1..]);
    }
  }

  lemma JoinNormal(pass: Pass, rule: Rule, a: Node, b: Node)
    requires Fits(pass, rule) && Joins(rule, a, b) && NormalBelow(pass, a) && NormalBelow(pass, b)
    ensures NormalBelow(pass, Join(rule, a, b))
  {
    if rule == Runs {
      MovedFrom(b.kids);
      NoRunsSettled(Join(rule, a, b).kids);
    }
  }

  lemma FuseNormal(pass: Pass, rule: Rule, ns: seq<Node>)
    requires Fits(pass, rule) && forall n | n in ns :: NormalBelow(pass, n)
    ensures forall n | n in Fuse(rule, ns) :: NormalBelow(pass, n)
  {
    forall a, b | Joins(rule, a, b) && NormalBelow(pass, a) && NormalBelow(pass, b)
      ensures NormalBelow(pass, Join(rule, a, b))
    {
      JoinNormal(pass, rule, a, b);
    }
    FuseKeeps(rule, n => NormalBelow(pass, n), ns);
  }

  lemma {:induction false} MergeTextsNormal(ns: seq<Node>)
    requires forall n | n in ns :: NormalBelow(MergeRuns, n)
    ensures forall n | n in MergeTextsAll(ns) :: NormalTree(MergeRuns, n)
  {
    if ns != [] {
      var r := ns[0];
      assert NormalBelow(MergeRuns, r);
      if r.Is(R) {
        FuseSettles(Texts, r.kids);
        FuseKeeps(Texts, (n: Node) => NormalTree(MergeRuns, n) && !n.Is(R), r.kids);
        NoRunsSettled(MergeTexts(r).kids);
      }
      MergeTextsNormal(ns[1..]);
    }
  }

  lemma LocalNormal(pass: Pass, ns: seq<Node>)
    requires forall n | n in ns :: NormalBelow(pass, n)
    ensures forall n | n in Local(pass, ns) :: NormalTree(pass, n)
  {
    match pass
    case Simplify =>
      FuseNormal(pass, Wrappers(Ins), ns);
      FuseNormal(pass, Wrappers(Del), Fuse(Wrappers(Ins), ns));
    case MergeRuns =>
      FuseNormal(pass, Runs, ns);
      MergeTextsNormal(Fuse(Runs, ns));
  }

  // The passes reach the normal form ...
  lemma EverywhereNormal(pass: Pass, n: Node)
    requires Suits(pass, n) && (pass == MergeRuns ==> !n.Is(R))
    ensures NormalTree(pass, Everywhere(pass, n))
  {
    EverywhereNormalBelow(pass, n);
  }

  lemma {:induction false} EverywhereAllNormalBelow(pass: Pass, ns: seq<Node>)
    requires SuitsAll(pass, ns)
    ensures forall n | n in EverywhereAll(pass, ns) :: NormalBelow(pass, n)
  {
    if ns != [] {
      assert Suits(pass, ns[0]);
      EverywhereNormalBelow(pass, ns[0]);
      EverywhereAllNormalBelow(pass, ns[1..]);
    }
  }

  lemma {:induction false} EverywhereNormalBelow(pass: Pass, n: Node)
    requires Suits(pass, n)
    ensures NormalBelow(pass, Everywhere(pass, n))
  {
    if n.Elem? {
      var ks := EverywhereAll(pass, n.kids);
      EverywhereAllNormalBelow(pass, n.kids);
      LocalNormal(pass, ks);
      match pass
      case Simplify =>
        FuseBothSettles(ks);
      case MergeRuns =>
        FuseRunsSettles(ks);
        if n.tag == R {
          EverywhereKeepsTags(pass, n.kids);
          FuseRunsOfNone(ks);
        }
    }
  }

  lemma {:induction false} EverywhereKeepsTags(pass: Pass, ns: seq<Node>)
    requires forall k | k in ns :: !k.Is(R)
    ensures forall k | k in EverywhereAll(pass, ns) :: !k.Is(R)
  {
    if ns != [] {
      assert !ns[0].Is(R);
      EverywhereKeepsTags(pass, ns[1..]);
    }
  }

  // The normal form in terms of the tree alone: no two neighbours anywhere that could be merged.
  ghost predicate NoneLeft(pass: Pass, n: Node) {
    n.Elem? ==>
      && (forall k | k in n.kids :: NoneLeft(pass, k))
      && match pass
         case Simplify => n.tag == P || n.tag == Tc ==> WrappersApart(Ins, n.kids) && WrappersApart(Del, n.kids)
         case MergeRuns => RunsApart(n.kids) && (n.tag == R ==> TextsApart(n.kids))
  }

  lemma {:induction false} NormalMeans(pass: Pass, n: Node)
    ensures NormalTree(pass, n) <==> NoneLeft(pass, n)
  {
    if n.Elem? {
      forall k | k in n.kids
        ensures NormalTree(pass, k) <==> NoneLeft(pass, k)
      {
        NormalMeans(pass, k);
      }
      WrappersSettled(Ins, n.kids);
      WrappersSettled(Del, n.kids);
      RunsSettled(n.kids);
      TextsSettled(n.kids);
    }
  }

  // ... and leave a tree in normal form alone.
  lemma {:induction false} NormalIsFixed(pass: Pass, n: Node)
    requires NormalTree(pass, n)
    ensures Everywhere(pass, n) == n
  {
    if n.Elem? {
      NormalAllFixed(pass, n.kids);
      match pass
      case Simplify =>
        if n.tag in {P, Tc} {
          SettledIsFixed(Wrappers(Ins), n.kids);
          SettledIsFixed(Wrappers(Del), n.kids);
        }
      case MergeRuns =>
        assert forall k | k in n.kids && k.Is(R) :: Settled(Texts, k.kids);
        FuseRunsFixed(n.kids);
    }
  }

  lemma {:induction false} NormalAllFixed(pass: Pass, ns: seq<Node>)
    requires forall n | n in ns :: NormalTree(pass, n)
    ensures EverywhereAll(pass, ns) == ns
  {
    if ns != [] {
      NormalIsFixed(pass, ns[0]);
      NormalAllFixed(pass, ns[1..]);
    }
  }

  // ----- The counts that the passes report

  // What a pass reduces: tracked-change wrappers, or runs.
  function Weight(pass: Pass, n: Node): nat {
    match pass
    case Simplify => Count(n, Ins) + Count(n, Del)
    case MergeRuns => Count(n, R)
  }

  function WeightAll(pass: Pass, ns: seq<Node>): nat {
    match pass
    case Simplify => CountAll(ns, Ins) + CountAll(ns, Del)
    case MergeRuns => CountAll(ns, R)
  }

  lemma WrappersLose(tag: Tag, ns: seq<Node>)
    requires IsChange(tag)
    ensures WeightAll(Simplify, Fuse(Wrappers(tag), ns)) == WeightAll(Simplify, ns) - (|ns| - |Fuse(Wrappers(tag), ns)|)
  {
    FuseLoses(Wrappers(tag), ns, Ins);
    FuseLoses(Wrappers(tag), ns, Del);
  }

  lemma LocalLoses(pass: Pass, ns: seq<Node>)
    requires SuitsAll(pass, ns)
    ensures WeightAll(pass, Local(pass, ns)) == WeightAll(pass, ns) - (|ns| - |Local(pass, ns)|)
  {
    match pass
    case Simplify =>
      WrappersLose(Ins, ns);
      WrappersLose(Del, Fuse(Wrappers(Ins), ns));
    case MergeRuns =>
      FuseRunsLoses(ns);
  }

  // ----- Spaces at the edge of a text stay protected

  predicate EdgeSpace(s: string) {
    [' '] <= s || (s != "" && s[|s| - 1..] == [' '])
  }

  // Texts with a space at an edge are marked to preserve it and, if exact, no others.
  ghost predicate Spaced(exact: bool, n: Node) {
    match n
    case TextElem(kind, text, space) =>
      kind == T ==> (EdgeSpace(text) ==> space == Some("preserve")) && (exact && !EdgeSpace(text) ==> space == None)
    case Elem(_, _, _, kids) => forall k | k in kids :: Spaced(exact, k)
    case _ => true
  }

  lemma FuseSpaced(exact: bool, rule: Rule, ns: seq<Node>)
    requires forall n | n in ns :: Spaced(exact, n)
    ensures forall n | n in Fuse(rule, ns) :: Spaced(exact, n)
  {
    forall a, b | Joins(rule, a, b) && Spaced(exact, a) && Spaced(exact, b)
      ensures Spaced(exact, Join(rule, a, b))
    {
      if rule == Runs {
        MovedFrom(b.kids);
      }
    }
    FuseKeeps(rule, n => Spaced(exact, n), ns);
  }

  lemma {:induction false} MergeTextsSpaced(exact: bool, ns: seq<Node>)
    requires forall n | n in ns :: Spaced(exact, n)
    ensures forall n | n in MergeTextsAll(ns) :: Spaced(exact, n)
  {
    if ns != [] {
      assert Spaced(exact, ns[0]);
      if ns[0].Is(R) {
        FuseSpaced(exact, Texts, ns[0].kids);
      }
      MergeTextsSpaced(exact, ns[1..]);
    }
  }

  lemma {:induction false} EverywhereSpaced(exact: bool, pass: Pass, n: Node)
    requires Spaced(exact, n)
    ensures Spaced(exact, Everywhere(pass, n))
  {
    if n.Elem? {
      EverywhereAllSpaced(exact, pass, n.kids);
      var ks := EverywhereAll(pass, n.kids);
      match pass
      case Simplify =>
        FuseSpaced(exact, Wrappers(Ins), ks);
        FuseSpaced(exact, Wrappers(Del), Fuse(Wrappers(Ins), ks));
      case MergeRuns =>
        FuseSpaced(exact, Runs, ks);
        MergeTextsSpaced(exact, Fuse(Runs, ks));
    }
  }

  lemma {:induction false} EverywhereAllSpaced(exact: bool, pass: Pass, ns: seq<Node>)
    requires forall n | n in ns :: Spaced(exact, n)
    ensures forall n | n in EverywhereAll(pass, ns) :: Spaced(exact, n)
  {
    if ns != [] {
      assert Spaced(exact, ns[0]);
      EverywhereSpaced(exact, pass, ns[0]);
      EverywhereAllSpaced(exact, pass, ns[1..]);
    }
  }
}
