/** The loops of simplify_redlines and merge_runs over one container's child list. A remembered
    child is its position in the list, so removing a child renumbers those remembered after it. */
module ChildLists {
  import opened DocxTree
  import opened Coalesce
  import opened Sequences

  // `at` lists the positions of a rule's elements, in order.
  ghost predicate Lists(rule: Rule, ns: seq<Node>, at: seq<nat>) {
    && (forall i | 0 <= i < |at| :: at[i] < |ns| && Head(rule, ns[at[i]]))
    && (forall i, j | 0 <= i < j < |at| :: at[i] < at[j])
    && (forall k | 0 <= k < |ns| && Head(rule, ns[k]) :: k in at)
  }

  method Remember(rule: Rule, ns: seq<Node>) returns (at: seq<nat>)
    ensures Lists(rule, ns, at)
  {
    at := [];
    for k := 0 to |ns|
      invariant forall i | 0 <= i < |at| :: at[i] < k && Head(rule, ns[at[i]])
      invariant forall i, j | 0 <= i < j < |at| :: at[i] < at[j]
      invariant forall m | 0 <= m < k && Head(rule, ns[m]) :: m in at
    {
      if Head(rule, ns[k]) {
        at := at + [k];
      }
    }
  }

  // Nothing but blanks (or, for runs, no element) between two remembered children.
  predicate Adjacent(rule: Rule, ns: seq<Node>, p: nat, q: nat)
    requires p < q < |ns|
  {
    forall k | p < k < q :: !Stops(rule, ns[k])
  }

  lemma NoHeadBetween(rule: Rule, ns: seq<Node>, at: seq<nat>, i: nat)
    requires Lists(rule, ns, at) && i < |at|
    ensures forall k | at[i] < k < (if i + 1 < |at| then at[i + 1] else |ns|) :: !Head(rule, ns[k])
    ensures i == 0 ==> forall k | 0 <= k < at[0] :: !Head(rule, ns[k])
  {
    forall k | 0 <= k < |ns| && Head(rule, ns[k])
      ensures exists j | 0 <= j < |at| :: at[j] == k
    {
      assert k in at;
    }
  }

  // The list once the remembered child at q has been merged into the one at p.
  function MergedAt(rule: Rule, ns: seq<Node>, p: nat, q: nat): (r: seq<Node>)
    requires p < q < |ns| && Head(rule, ns[p]) && Head(rule, ns[q])
    ensures |r| == |ns| - 1
    ensures forall k | 0 <= k < |r| ::
              r[k] == if k == p then Join(rule, ns[p], ns[q]) else if k < q then ns[k] else ns[k + 1]
  {
    ns[..p] + [Join(rule, ns[p], ns[q])] + ns[p + 1..q] + ns[q + 1..]
  }

  // The loop has dealt with ns[..p], and coalescing the rest finishes the job on `start`.
  ghost predicate Pending(rule: Rule, start: seq<Node>, ns: seq<Node>, p: nat) {
    p <= |ns| && Fuse(rule, start) == ns[..p] + Fuse(rule, ns[p..])
  }

  lemma PendingStart(rule: Rule, ns: seq<Node>, p: nat)
    requires p <= |ns| && forall k | 0 <= k < p :: !Head(rule, ns[k])
    ensures Pending(rule, ns, ns, p)
  {
    FusePastOthers(rule, ns[..p], ns[p..]);
    assert ns == ns[..p] + ns[p..];
  }

  lemma PendingEnd(rule: Rule, start: seq<Node>, ns: seq<Node>)
    requires Pending(rule, start, ns, |ns|)
    ensures Fuse(rule, start) == ns
  {
    assert ns[..|ns|] + [] == ns;
  }

  // One merge.
  lemma PendingMerge(rule: Rule, start: seq<Node>, ns: seq<Node>, p: nat, q: nat)
    requires Pending(rule, start, ns, p)
    requires p < q < |ns| && Joins(rule, ns[p], ns[q]) && Adjacent(rule, ns, p, q)
    ensures Pending(rule, start, MergedAt(rule, ns, p, q), p)
  {
    FuseAfterMerge(rule, ns, p, q);
  }

  lemma FuseAfterMerge(rule: Rule, ns: seq<Node>, p: nat, q: nat)
    requires p < q < |ns| && Joins(rule, ns[p], ns[q]) && Adjacent(rule, ns, p, q)
    ensures Fuse(rule, MergedAt(rule, ns, p, q)[p..]) == Fuse(rule, ns[p..])
    ensures MergedAt(rule, ns, p, q)[..p] == ns[..p]
  {
    FuseStep(rule, ns[p], ns[p + 1..q], ns[q], ns[q + 1..]);
    MergeParts(rule, ns, p, q, Join(rule, ns[p], ns[q]));
  }

  lemma MergeParts(rule: Rule, ns: seq<Node>, p: nat, q: nat, j: Node)
    requires p < q < |ns| && Head(rule, ns[p]) && Head(rule, ns[q]) && j == Join(rule, ns[p], ns[q])
    ensures ns[p..] == [ns[p]] + ns[p + 1..q] + ([ns[q]] + ns[q + 1..])
    ensures MergedAt(rule, ns, p, q)[p..] == [j] + ns[p + 1..q] + ns[q + 1..]
    ensures MergedAt(rule, ns, p, q)[..p] == ns[..p]
  {
  }

  // A remembered child that cannot be merged with the next one stays, and so does what follows
  // up to the next one.
  lemma PendingSkip(rule: Rule, start: seq<Node>, ns: seq<Node>, p: nat, q: nat)
    requires Pending(rule, start, ns, p)
    requires p < q <= |ns| && forall k | p < k < q :: !Head(rule, ns[k])
    requires q < |ns| ==> Head(rule, ns[q]) && !(Adjacent(rule, ns, p, q) && Joins(rule, ns[p], ns[q]))
    ensures Pending(rule, start, ns, q)
  {
    FuseSkips(rule, ns, p, q);
    Regrouped(ns[..p], ns[p..q], Fuse(rule, ns[q..]));
    assert ns[..p] + ns[p..q] == ns[..q];
  }

  lemma FuseSkips(rule: Rule, ns: seq<Node>, p: nat, q: nat)
    requires p < q <= |ns| && forall k | p < k < q :: !Head(rule, ns[k])
    requires q < |ns| ==> Head(rule, ns[q]) && !(Adjacent(rule, ns, p, q) && Joins(rule, ns[p], ns[q]))
    ensures Fuse(rule, ns[p..]) == ns[p..q] + Fuse(rule, ns[q..])
  {
    assert ns[p..] == [ns[p]] + ns[p + 1..q] + ns[q..];
    FuseSkipsParts(rule, ns[p], ns[p + 1..q], ns[q..]);
    assert ns[p..q] == [ns[p]] + ns[p + 1..q];
  }

  lemma FuseSkipsParts(rule: Rule, x: Node, mid: seq<Node>, rest: seq<Node>)
    requires forall k | 0 <= k < |mid| :: !Head(rule, mid[k])
    requires rest != [] ==> Head(rule, rest[0]) && !(Gap(rule, mid) && Joins(rule, x, rest[0]))
    ensures Fuse(rule, [x] + mid + rest) == [x] + mid + Fuse(rule, rest)
  {
    FuseCons(rule, x, mid, rest);
    LonelyAt(rule, x, mid, rest);
    LonelyPrepends(rule, x, mid + Fuse(rule, rest));
    Regrouped([x], mid, Fuse(rule, rest));
  }

  lemma {:induction false} LonelyAt(rule: Rule, x: Node, mid: seq<Node>, rest: seq<Node>)
    requires forall k | 0 <= k < |mid| :: !Head(rule, mid[k])
    requires rest != [] ==> Head(rule, rest[0]) && !(Gap(rule, mid) && Joins(rule, x, rest[0]))
    ensures Lonely(rule, x, mid + Fuse(rule, rest))
  {
    var f := mid + Fuse(rule, rest);
    if mid == [] {
      assert f == Fuse(rule, rest);
      if rest != [] {
        PrependKey(rule, x, rest[0], Fuse(rule, rest[1..]));
      }
    } else if !Stops(rule, mid[0]) {
      assert f[1..] == mid[1..] + Fuse(rule, rest);
      assert Gap(rule, mid[1..]) ==> Gap(rule, mid);
      LonelyAt(rule, x, mid[1..], rest);
    }
  }

  // The remembered positions once the child remembered at index i is removed from the list.
  function Popped(at: seq<nat>, i: nat): (r: seq<nat>)
    requires 0 < i < |at| && forall x, y | 0 <= x < y < |at| :: at[x] < at[y]
    ensures |r| == |at| - 1
    ensures forall x | 0 <= x < |r| :: r[x] == if x < i then at[x] else Before(at[x + 1])
  {
    at[..i] + AllBefore(at[i + 1..])
  }

  function AllBefore(at: seq<nat>): (r: seq<nat>)
    ensures |r| == |at| && forall x | 0 <= x < |r| :: r[x] == Before(at[x])
  {
    if at == [] then [] else [Before(at[0])] + AllBefore(at[1..])
  }

  function Before(p: nat): nat {
    if p == 0 then 0 else p - 1
  }

  lemma ListsAfterMerge(rule: Rule, ns: seq<Node>, at: seq<nat>, i: nat)
    requires rule.Wrappers? && Lists(rule, ns, at) && i + 1 < |at| && Joins(rule, ns[at[i]], ns[at[i + 1]])
    ensures Lists(rule, MergedAt(rule, ns, at[i], at[i + 1]), Popped(at, i + 1))
  {
    var m, r := MergedAt(rule, ns, at[i], at[i + 1]), Popped(at, i + 1);
    forall x | 0 <= x < |r|
      ensures r[x] < |m| && Head(rule, m[r[x]])
    {
      StillHead(rule, ns, at, i, x);
    }
    StillOrdered(at, i);
    forall k | 0 <= k < |m| && Head(rule, m[k])
      ensures k in r
    {
      HeadBack(rule, ns, at[i], at[i + 1], k);
      AllListed(rule, ns, at, i, k);
    }
  }

  lemma StillHead(rule: Rule, ns: seq<Node>, at: seq<nat>, i: nat, x: nat)
    requires rule.Wrappers? && Lists(rule, ns, at) && i + 1 < |at| && Joins(rule, ns[at[i]], ns[at[i + 1]])
    requires x < |at| - 1
    ensures var p, m := Popped(at, i + 1)[x], MergedAt(rule, ns, at[i], at[i + 1]);
            p < |m| && Head(rule, m[p])
  {
    var p, q, y := at[i], at[i + 1], if x < i + 1 then at[x] else at[x + 1];
    assert x < i ==> at[x] < p;
    assert x > i ==> q < at[x + 1];
    assert y != q && Head(rule, ns[y]);
    HeadKept(rule, ns, p, q, y);
  }

  lemma HeadKept(rule: Rule, ns: seq<Node>, p: nat, q: nat, y: nat)
    requires rule.Wrappers? && p < q < |ns| && Head(rule, ns[p]) && Head(rule, ns[q])
    requires y < |ns| && y != q && Head(rule, ns[y])
    ensures var k := if y < q then y else Before(y);
            k < |ns| - 1 && Head(rule, MergedAt(rule, ns, p, q)[k])
  {
  }

  lemma StillOrdered(at: seq<nat>, i: nat)
    requires i + 1 < |at| && forall x, y | 0 <= x < y < |at| :: at[x] < at[y]
    ensures var r := Popped(at, i + 1); forall x, y | 0 <= x < y < |r| :: r[x] < r[y]
  {
    var r := Popped(at, i + 1);
    forall x, y | 0 <= x < y < |r|
      ensures r[x] < r[y]
    {
      if y > i {
        assert at[i] < at[i + 1] < at[y + 1];
        assert x < i ==> at[x] < at[i];
        assert x > i ==> at[i + 1] < at[x + 1] < at[y + 1];
      }
    }
  }

  // Merging wrappers makes no element a wrapper that was none.
  lemma HeadBack(rule: Rule, ns: seq<Node>, p: nat, q: nat, k: nat)
    requires rule.Wrappers? && p < q < |ns| && Head(rule, ns[p]) && Head(rule, ns[q])
    requires k < |ns| - 1 && Head(rule, MergedAt(rule, ns, p, q)[k])
    ensures Head(rule, ns[if k < q then k else k + 1])
  {
  }

  lemma AllListed(rule: Rule, ns: seq<Node>, at: seq<nat>, i: nat, k: nat)
    requires Lists(rule, ns, at) && i + 1 < |at|
    requires k < |ns| - 1 && Head(rule, ns[if k < at[i + 1] then k else k + 1])
    ensures k in Popped(at, i + 1)
  {
    var k' := if k < at[i + 1] then k else k + 1;
    ListedAt(rule, ns, at, k');
    PoppedKeeps(at, i + 1, k');
  }

  lemma PoppedKeeps(at: seq<nat>, i: nat, k: nat)
    requires 0 < i < |at| && forall x, y | 0 <= x < y < |at| :: at[x] < at[y]
    requires k != at[i] && exists x | 0 <= x < |at| :: at[x] == k
    ensures (if k < at[i] then k else Before(k)) in Popped(at, i)
  {
    var x :| 0 <= x < |at| && at[x] == k;
    PoppedHas(at, i, x);
  }

  lemma PoppedHas(at: seq<nat>, i: nat, x: nat)
    requires 0 < i < |at| && forall x, y | 0 <= x < y < |at| :: at[x] < at[y]
    requires x < |at| && x != i
    ensures (if at[x] < at[i] then at[x] else Before(at[x])) in Popped(at, i)
  {
    var r := Popped(at, i);
    if x < i {
      assert r[x] == at[x];
    } else {
      assert r[x - 1] == Before(at[x]);
    }
  }

  lemma ListedAt(rule: Rule, ns: seq<Node>, at: seq<nat>, k: nat)
    requires Lists(rule, ns, at) && k < |ns| && Head(rule, ns[k])
    ensures exists x | 0 <= x < |at| :: at[x] == k
  {
    assert k in at;
  }

  // Where the loop is: the children before the i-th remembered one are done.
  ghost predicate Merging(rule: Rule, start: seq<Node>, ns: seq<Node>, at: seq<nat>, i: nat) {
    i < |at| && Lists(rule, ns, at) && Pending(rule, start, ns, at[i])
  }

  lemma MergingStarts(rule: Rule, ns: seq<Node>, at: seq<nat>)
    requires Lists(rule, ns, at) && at != []
    ensures Merging(rule, ns, ns, at, 0)
  {
    NoHeadBetween(rule, ns, at, 0);
    PendingStart(rule, ns, at[0]);
  }

  lemma MergingHere(rule: Rule, start: seq<Node>, ns: seq<Node>, at: seq<nat>, i: nat)
    requires rule.Wrappers? && Merging(rule, start, ns, at, i) && i + 1 < |at|
    requires Joins(rule, ns[at[i]], ns[at[i + 1]]) && Adjacent(rule, ns, at[i], at[i + 1])
    ensures Merging(rule, start, MergedAt(rule, ns, at[i], at[i + 1]), Popped(at, i + 1), i)
  {
    PendingMerge(rule, start, ns, at[i], at[i + 1]);
    ListsAfterMerge(rule, ns, at, i);
  }

  lemma MergingPast(rule: Rule, start: seq<Node>, ns: seq<Node>, at: seq<nat>, i: nat)
    requires Merging(rule, start, ns, at, i) && i + 1 < |at|
    requires !(Joins(rule, ns[at[i]], ns[at[i + 1]]) && Adjacent(rule, ns, at[i], at[i + 1]))
    ensures Merging(rule, start, ns, at, i + 1)
  {
    NoHeadBetween(rule, ns, at, i);
    PendingSkip(rule, start, ns, at[i], at[i + 1]);
  }

  lemma MergingEnds(rule: Rule, start: seq<Node>, ns: seq<Node>, at: seq<nat>, i: nat)
    requires Merging(rule, start, ns, at, i) && i + 1 == |at|
    ensures Fuse(rule, start) == ns
  {
    NoHeadBetween(rule, ns, at, i);
    PendingSkip(rule, start, ns, at[i], |ns|);
    PendingEnd(rule, start, ns);
  }

  // _merge_tracked_changes_in
  method MergeTrackedChangesIn(childNodes: seq<Node>, tag: Tag) returns (kids: seq<Node>, mergeCount: nat)
    ensures kids == Fuse(Wrappers(tag), childNodes) && WrappersApart(tag, kids)
    ensures mergeCount == |childNodes| - |kids|
  {
    FuseSettles(Wrappers(tag), childNodes);
    WrappersSettled(tag, Fuse(Wrappers(tag), childNodes));
    var rule := Wrappers(tag);
    kids, mergeCount := childNodes, 0;
    var tracked := Remember(rule, kids);
    if |tracked| < 2 {
      FewAreSettled(rule, kids, tracked);
      return;
    }
    MergingStarts(rule, kids, tracked);
    var i := 0;
    while i < |tracked| - 1
      invariant 0 <= i && Merging(rule, childNodes, kids, tracked, i)
      invariant mergeCount == |childNodes| - |kids|
      decreases |tracked| - i
    {
      var curr, next := tracked[i], tracked[i + 1];
      if AuthorOrEmpty(kids[curr]) == AuthorOrEmpty(kids[next]) && Adjacent(rule, kids, curr, next) {
        MergingHere(rule, childNodes, kids, tracked, i);
        kids := MergedAt(rule, kids, curr, next);
        tracked := Popped(tracked, i + 1);
        mergeCount := mergeCount + 1;
      } else {
        MergingPast(rule, childNodes, kids, tracked, i);
        i := i + 1;
      }
    }
    MergingEnds(rule, childNodes, kids, tracked, i);
  }

  lemma FewAreSettled(rule: Rule, ns: seq<Node>, at: seq<nat>)
    requires Lists(rule, ns, at) && |at| < 2
    ensures Fuse(rule, ns) == ns
  {
    if at == [] {
      PendingStart(rule, ns, |ns|);
    } else {
      NoHeadBetween(rule, ns, at, 0);
      PendingStart(rule, ns, at[0]);
      PendingSkip(rule, ns, ns, at[0], |ns|);
    }
    PendingEnd(rule, ns, ns);
  }

  // _consolidate_text: the remembered texts are merged from the last pair to the first.
  method ConsolidateText(childNodes: seq<Node>) returns (kids: seq<Node>)
    ensures kids == Fuse(Texts, childNodes)
  {
    kids := childNodes;
    var texts := Remember(Texts, kids);
    if |texts| < 2 {
      FewAreSettled(Texts, kids, texts);
      return;
    }
    var i := |texts| - 1;
    TextsStart(childNodes, texts);
    while i > 0
      invariant 0 <= i < |texts| && TextsTo(childNodes, kids, texts, i)
    {
      TextsRound(childNodes, kids, texts, i);
      kids := Round(kids, texts[i - 1], texts[i]);
      i := i - 1;
    }
    TextsEnd(childNodes, kids, texts);
  }

  // Where the loop is: everything from the i-th remembered text on is done.
  ghost predicate TextsTo(ns: seq<Node>, kids: seq<Node>, texts: seq<nat>, i: nat) {
    i < |texts| && Lists(Texts, ns, texts) && TextsDone(ns, kids, texts[i])
  }

  // The list with everything from position p on coalesced.
  ghost predicate TextsDone(ns: seq<Node>, kids: seq<Node>, p: nat) {
    p <= |ns| && kids == ns[..p] + Fuse(Texts, ns[p..])
  }

  lemma TextsStart(ns: seq<Node>, texts: seq<nat>)
    requires Lists(Texts, ns, texts) && texts != []
    ensures TextsTo(ns, ns, texts, |texts| - 1)
  {
    var p := texts[|texts| - 1];
    NoHeadBetween(Texts, ns, texts, |texts| - 1);
    FuseSkips(Texts, ns, p, |ns|);
    assert ns == ns[..p] + (ns[p..] + []);
  }

  lemma TextsEnd(ns: seq<Node>, kids: seq<Node>, texts: seq<nat>)
    requires Lists(Texts, ns, texts) && texts != [] && TextsDone(ns, kids, texts[0])
    ensures kids == Fuse(Texts, ns)
  {
    NoHeadBetween(Texts, ns, texts, 0);
    PendingStart(Texts, ns, texts[0]);
  }

  predicate TextsAt(ns: seq<Node>, p: nat, q: nat) {
    p < q < |ns| && Head(Texts, ns[p]) && Head(Texts, ns[q])
  }

  // What one round of the right-to-left loop does to the texts at p and q.
  function Round(ns: seq<Node>, p: nat, q: nat): seq<Node> {
    if TextsAt(ns, p, q) && Adjacent(Texts, ns, p, q) then MergedAt(Texts, ns, p, q) else ns
  }

  lemma TextsRound(ns: seq<Node>, kids: seq<Node>, texts: seq<nat>, i: nat)
    requires 0 < i && TextsTo(ns, kids, texts, i)
    ensures TextsAt(kids, texts[i - 1], texts[i])
    ensures TextsTo(ns, Round(kids, texts[i - 1], texts[i]), texts, i - 1)
  {
    NoHeadBetween(Texts, ns, texts, i - 1);
    TextsRoundAt(ns, kids, texts[i - 1], texts[i]);
  }

  lemma TextsRoundAt(ns: seq<Node>, kids: seq<Node>, prev: nat, curr: nat)
    requires prev < curr < |ns| && Head(Texts, ns[prev]) && Head(Texts, ns[curr])
    requires forall k | prev < k < curr :: !Head(Texts, ns[k])
    requires TextsDone(ns, kids, curr)
    ensures TextsAt(kids, prev, curr) && TextsDone(ns, Round(kids, prev, curr), prev)
  {
    var mid, tail := ns[prev + 1..curr], Fuse(Texts, ns[prev..]);
    var rest := [ns[prev]] + mid + Fuse(Texts, ns[curr..]);
    FourParts(ns, prev, curr, Fuse(Texts, ns[curr..]));
    TailParts(ns, prev, curr);
    PrependRound(ns[prev], mid, ns[curr..]);
    RoundShifts(ns[..prev], rest, curr - prev, tail);
  }

  lemma RoundShifts(pre: seq<Node>, ns: seq<Node>, q: nat, r: seq<Node>)
    requires TextsAt(ns, 0, q) && r == Round(ns, 0, q)
    ensures TextsAt(pre + ns, |pre|, |pre| + q)
    ensures pre + r == Round(pre + ns, |pre|, |pre| + q)
  {
    assert (pre + ns)[|pre|] == ns[0] && (pre + ns)[|pre| + q] == ns[q];
    MergedAtShifts(Texts, pre, ns, 0, q);
  }

  lemma FuseKeepsHead(s: seq<Node>)
    requires s != [] && Head(Texts, s[0])
    ensures Fuse(Texts, s) != [] && Head(Texts, Fuse(Texts, s)[0])
  {
    PrependKey(Texts, s[0], s[0], Fuse(Texts, s[1..]));
  }

  lemma TailParts(ns: seq<Node>, prev: nat, curr: nat)
    requires prev < curr <= |ns|
    ensures ns[prev..] == [ns[prev]] + ns[prev + 1..curr] + ns[curr..]
  {
  }

  lemma FourParts(ns: seq<Node>, prev: nat, curr: nat, f: seq<Node>)
    requires prev < curr <= |ns|
    ensures ns[..curr] + f == ns[..prev] + ([ns[prev]] + ns[prev + 1..curr] + f)
  {
  }

  lemma PrependRound(x: Node, mid: seq<Node>, s: seq<Node>)
    requires Head(Texts, x) && s != [] && Head(Texts, s[0])
    requires forall k | 0 <= k < |mid| :: !Head(Texts, mid[k])
    ensures TextsAt([x] + mid + Fuse(Texts, s), 0, 1 + |mid|)
    ensures Fuse(Texts, [x] + mid + s) == Round([x] + mid + Fuse(Texts, s), 0, 1 + |mid|)
  {
    var f := Fuse(Texts, s);
    FuseKeepsHead(s);
    FuseCons(Texts, x, mid, s);
    if Gap(Texts, mid) {
      PrependAcross(Texts, x, mid, f);
    } else {
      LonelyAt(Texts, x, mid, s);
      LonelyPrepends(Texts, x, mid + f);
      Regrouped([x], mid, f);
    }
    RoundOf(x, mid, f);
  }

  lemma RoundOf(x: Node, mid: seq<Node>, f: seq<Node>)
    requires Head(Texts, x) && f != [] && Head(Texts, f[0])
    ensures TextsAt([x] + mid + f, 0, 1 + |mid|)
    ensures Round([x] + mid + f, 0, 1 + |mid|) ==
            if Gap(Texts, mid) then [Prepend(Texts, x, f)[0]] + mid + Prepend(Texts, x, f)[1..] else [x] + mid + f
  {
    AdjacentGap(Texts, x, mid, f);
    MergedFirst(x, mid, f);
  }

  lemma MergedAtShifts(rule: Rule, pre: seq<Node>, ns: seq<Node>, p: nat, q: nat)
    requires p < q < |ns| && Head(rule, ns[p]) && Head(rule, ns[q])
    ensures Adjacent(rule, pre + ns, |pre| + p, |pre| + q) == Adjacent(rule, ns, p, q)
    ensures MergedAt(rule, pre + ns, |pre| + p, |pre| + q) == pre + MergedAt(rule, ns, p, q)
  {
    AdjacentShifts(rule, pre, ns, p, q);
    var all := pre + ns;
    assert all[|pre| + p] == ns[p] && all[|pre| + q] == ns[q];
    assert all[..|pre| + p] == pre + ns[..p];
    assert all[|pre| + p + 1..|pre| + q] == ns[p + 1..q];
    assert all[|pre| + q + 1..] == ns[q + 1..];
  }

  lemma AdjacentShifts(rule: Rule, pre: seq<Node>, ns: seq<Node>, p: nat, q: nat)
    requires p < q < |ns|
    ensures Adjacent(rule, pre + ns, |pre| + p, |pre| + q) == Adjacent(rule, ns, p, q)
  {
    assert forall k | 0 <= k < |ns| :: ns[k] == (pre + ns)[|pre| + k];
    assert forall k | |pre| <= k < |pre + ns| :: (pre + ns)[k] == ns[k - |pre|];
  }

  lemma AdjacentGap(rule: Rule, x: Node, mid: seq<Node>, f: seq<Node>)
    requires f != []
    ensures Adjacent(rule, [x] + mid + f, 0, 1 + |mid|) <==> Gap(rule, mid)
  {
    var ns := [x] + mid + f;
    assert forall k | 0 <= k < |mid| :: mid[k] == ns[1 + k];
    assert forall k | 0 < k < 1 + |mid| :: ns[k] == mid[k - 1];
  }

  lemma MergedFirst(x: Node, mid: seq<Node>, f: seq<Node>)
    requires Head(Texts, x) && f != [] && Head(Texts, f[0])
    ensures MergedAt(Texts, [x] + mid + f, 0, 1 + |mid|) == [Prepend(Texts, x, f)[0]] + mid + Prepend(Texts, x, f)[1..]
  {
    var ns := [x] + mid + f;
    assert ns[..0] == [] && ns[1..1 + |mid|] == mid && ns[2 + |mid|..] == f[1..];
    assert Prepend(Texts, x, f) == [JoinTexts(x, f[0])] + f[1..];
  }

  // ----- merge_runs: the loop over one container's runs

  // The position of the next element sibling after p, or the end of the list.
  function NextElement(ns: seq<Node>, p: nat): (q: nat)
    requires p < |ns|
    ensures p < q <= |ns| && (q < |ns| ==> ns[q].IsElement())
    ensures forall k | p < k < q :: !ns[k].IsElement()
    decreases |ns| - p
  {
    if p + 1 == |ns| || ns[p + 1].IsElement() then p + 1 else NextElement(ns, p + 1)
  }

  // The position of the first run from p on, or the end of the list.
  function NextRun(ns: seq<Node>, p: nat): (q: nat)
    requires p <= |ns|
    ensures p <= q <= |ns| && (q < |ns| ==> ns[q].Is(R))
    ensures forall k | p <= k < q :: !ns[k].Is(R)
    decreases |ns| - p
  {
    if p == |ns| || ns[p].Is(R) then p else NextRun(ns, p + 1)
  }

  // ns[..p] is finished, and merging runs and their texts in the rest finishes the job.
  ghost predicate RunsPending(start: seq<Node>, ns: seq<Node>, p: nat) {
    p <= |ns| && FuseRuns(start) == ns[..p] + FuseRuns(ns[p..])
  }

  lemma {:induction false} MergeTextsAppend(a: seq<Node>, b: seq<Node>)
    ensures MergeTextsAll(a + b) == MergeTextsAll(a) + MergeTextsAll(b)
  {
    if a == [] {
      assert a + b == b;
    } else {
      assert (a + b)[1..] == a[1..] + b;
      MergeTextsAppend(a[1..], b);
    }
  }

  lemma RunsStart(ns: seq<Node>, p: nat)
    requires p <= |ns| && forall k | 0 <= k < p :: !ns[k].Is(R)
    ensures RunsPending(ns, ns, p)
  {
    FusePastOthers(Runs, ns[..p], ns[p..]);
    assert ns == ns[..p] + ns[p..];
    MergeTextsAppend(ns[..p], Fuse(Runs, ns[p..]));
    MergeTextsFixed(ns[..p]);
  }

  lemma RunsMerge(start: seq<Node>, ns: seq<Node>, p: nat, q: nat)
    requires RunsPending(start, ns, p)
    requires p < q < |ns| && Joins(Runs, ns[p], ns[q]) && Adjacent(Runs, ns, p, q)
    ensures RunsPending(start, MergedAt(Runs, ns, p, q), p)
  {
    FuseAfterMerge(Runs, ns, p, q);
  }

  // No further run joins the one at p, so its texts are merged and the loop moves on to q.
  lemma RunsNext(start: seq<Node>, ns: seq<Node>, p: nat, q: nat)
    requires RunsPending(start, ns, p)
    requires p < q <= |ns| && ns[p].Is(R) && forall k | p < k < q :: !ns[k].Is(R)
    requires q < |ns| ==> ns[q].Is(R) && !(Adjacent(Runs, ns, p, q) && Joins(Runs, ns[p], ns[q]))
    ensures RunsPending(start, ns[p := MergeTexts(ns[p])], q)
  {
    var mid, tail := ns[p + 1..q], Fuse(Runs, ns[q..]);
    FuseSkips(Runs, ns, p, q);
    assert ns[p..q] == [ns[p]] + mid;
    MergeTextsOfRun(ns[p], mid, tail);
    UpdateParts(ns, p, q, MergeTexts(ns[p]), MergeTextsAll(tail));
  }

  lemma MergeTextsOfRun(x: Node, mid: seq<Node>, tail: seq<Node>)
    requires forall k | 0 <= k < |mid| :: !mid[k].Is(R)
    ensures MergeTextsAll([x] + mid + tail) == [MergeTexts(x)] + mid + MergeTextsAll(tail)
  {
    MergeTextsAppend([x] + mid, tail);
    MergeTextsAppend([x], mid);
    assert [x][1..] == [];
    MergeTextsFixed(mid);
  }

  lemma UpdateParts(ns: seq<Node>, p: nat, q: nat, x: Node, tail: seq<Node>)
    requires p < q <= |ns|
    ensures ns[..p] + ([x] + ns[p + 1..q] + tail) == ns[p := x][..q] + tail
    ensures ns[p := x][q..] == ns[q..]
  {
  }

  lemma RunsEnd(start: seq<Node>, ns: seq<Node>)
    requires RunsPending(start, ns, |ns|)
    ensures FuseRuns(start) == ns
  {
    assert ns[..|ns|] + [] == ns;
  }

  // _merge_runs_in
  method MergeRunsIn(childNodes: seq<Node>) returns (kids: seq<Node>, mergeCount: nat)
    ensures kids == FuseRuns(childNodes)
    ensures RunsApart(kids) && forall n | n in kids && n.Is(R) :: TextsApart(n.kids)
    ensures mergeCount == |childNodes| - |kids|
  {
    MergesExactly(childNodes);
    kids, mergeCount := childNodes, 0;
    var run: nat := NextRun(kids, 0);
    RunsStart(kids, run);
    while run < |kids|
      invariant run <= |kids| && (run < |kids| ==> kids[run].Is(R))
      invariant RunsPending(childNodes, kids, run)
      invariant mergeCount == |childNodes| - |kids|
      decreases |kids| - run
    {
      var next := NextElement(kids, run);
      while next < |kids| && kids[next].Is(R) && PropsOf(kids[run].kids) == PropsOf(kids[next].kids)
        invariant run < |kids| && kids[run].Is(R) && next == NextElement(kids, run)
        invariant RunsPending(childNodes, kids, run)
        invariant mergeCount == |childNodes| - |kids|
        decreases |kids|
      {
        RunsMerge(childNodes, kids, run, next);
        kids := MergedAt(Runs, kids, run, next);
        mergeCount := mergeCount + 1;
        next := NextElement(kids, run);
      }
      var after := NextRun(kids, run + 1);
      RunsNext(childNodes, kids, run, after);
      var texts := ConsolidateText(kids[run].kids);
      kids := kids[run := kids[run].(kids := texts)];
      run := after;
    }
    RunsEnd(childNodes, kids);
  }
}
