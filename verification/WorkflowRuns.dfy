/** What holds over every run of the teaching workflow, of any number of turns. */
module WorkflowRuns {
  import opened Options
  import opened Workflow

  // ----- The invariant

  ghost predicate SameMembers<A>(a: seq<A>, b: seq<A>) {
    (forall x | x in a :: x in b) && (forall x | x in b :: x in a)
  }

  // Exactly the kinds that fan-in will look at are launched, each once and with a cleared slot,
  // and revisions are told from generations by their sources.
  ghost predicate LaunchFits(g: Graph, mode: Mode, kinds: seq<Kind>) {
    && kinds != [] && NoRepeats(kinds)
    && NoRepeats(TargetKinds(g)) && SameMembers(kinds, TargetKinds(g))
    && (mode.Revise? <==> g.sources != [])
    && g.results == [] && forall k | k in kinds :: k in g.slots && g.slots[k] == PendingResult(k)
  }

  predicate GoesOnTo(g: Graph, next: Next) {
    g.reflectionGoto == Some(next)
  }

  // A successor is stored exactly where the reflection is about to consume it.
  predicate Routed(g: Graph) {
    if g.next == At(ProfileReflection)
    then g.reflectionGoto.None? || GoesOnTo(g, End) || GoesOnTo(g, At(UserInput)) || GoesOnTo(g, At(PlanReview))
    else g.reflectionGoto.None?
  }

  ghost predicate Inv(g: Graph) {
    && Routed(g)
    && NoRepeats(KindsOf(g.catalog))
    && (g.next == At(Clarification) ==> g.catalog != [])
    && (g.next.FanOut? ==> LaunchFits(g, g.next.mode, g.next.kinds))
  }

  lemma {:induction false} DeduplicatedNames(kinds: seq<Kind>)
    requires NoRepeats(kinds)
    ensures Deduplicated(Named(kinds)) == kinds
  {
    if kinds != [] {
      var n := |kinds| - 1;
      DeduplicatedNames(kinds[..n]);
      assert Named(kinds)[..n] == Named(kinds[..n]);
      assert kinds == kinds[..n] + [kinds[n]];
    }
  }

  lemma KindsPrepend(a: Artifact, rest: seq<Artifact>)
    ensures KindsOf([a] + rest) == [a.kind] + KindsOf(rest)
  {
    assert ([a] + rest)[1..] == rest;
  }

  lemma NoRepeatsPrepend<A>(x: A, rest: seq<A>)
    ensures NoRepeats([x] + rest) <==> x !in rest && NoRepeats(rest)
  {
    var s := [x] + rest;
    if NoRepeats(s) {
      forall i | 0 <= i < |rest|
        ensures rest[i] != x
      {
        assert s[0] != s[i + 1];
      }
      forall i, j | 0 <= i < j < |rest|
        ensures rest[i] != rest[j]
      {
        assert s[i + 1] != s[j + 1];
      }
    }
  }

  lemma {:induction false} MatchingKinds(catalog: seq<Artifact>, kinds: seq<Kind>)
    requires NoRepeats(KindsOf(catalog))
    ensures forall k | k in KindsOf(Matching(catalog, kinds)) :: k in KindsOf(catalog)
    ensures NoRepeats(KindsOf(Matching(catalog, kinds)))
  {
    if catalog != [] {
      var rest := Matching(catalog[1..], kinds);
      assert catalog == [catalog[0]] + catalog[1..];
      KindsPrepend(catalog[0], catalog[1..]);
      NoRepeatsPrepend(catalog[0].kind, KindsOf(catalog[1..]));
      MatchingKinds(catalog[1..], kinds);
      if catalog[0].kind in kinds {
        KindsPrepend(catalog[0], rest);
        NoRepeatsPrepend(catalog[0].kind, KindsOf(rest));
      } else {
        assert Matching(catalog, kinds) == rest;
      }
    }
  }

  lemma RevisingKeeps(g: Graph, selected: seq<Artifact>)
    requires Inv(g.(next := End)) && selected != [] && NoRepeats(KindsOf(selected))
    ensures Inv(Revising(g, selected))
  {
    LaunchedExactly(KindsOf(selected));
  }

  lemma PlanReviewKeeps(g: Graph, input: Input)
    requires Inv(g) && g.next == At(PlanReview)
    ensures Inv(PlanReviewNode(g, input))
  {
    if input.Approve? && Normalized(input.selected) != [] {
      var kinds := Normalized(input.selected);
      NormalizedExactly(input.selected);
      DeduplicatedNames(kinds);
      LaunchedExactly(kinds);
    }
  }

  lemma ClarificationKeeps(g: Graph, input: Input)
    requires Inv(g) && g.next == At(Clarification)
    ensures Inv(ClarificationNode(g, input))
  {
    if input.Approve? {
      RevisingKeeps(g, g.catalog);
    }
  }

  lemma RevisionRouterKeeps(g: Graph)
    requires Inv(g) && g.next == At(RevisionRouter)
    ensures Inv(RevisionRouterNode(g))
  {
    if g.catalog != [] {
      var kinds := InferredTargets(g.latest, g.catalog);
      if kinds.Some? && Matching(g.catalog, kinds.value) != [] {
        MatchingKinds(g.catalog, kinds.value);
        RevisingKeeps(g, Matching(g.catalog, kinds.value));
      }
    }
  }

  lemma StepRouted(g: Graph, e: Event)
    requires Routed(g) && Enabled(g, e)
    ensures Routed(Do(g, e))
  {
  }

  lemma AnswerKeepsCatalog(g: Graph, input: Input)
    requires g.next == At(UserInput) || g.next == At(MetadataReview)
    ensures ResumeNode(g, input).catalog == g.catalog
    ensures ResumeNode(g, input).next.At? && ResumeNode(g, input).next != At(Clarification)
  {
  }

  lemma IntentKeepsCatalog(g: Graph, intent: Intent)
    ensures var h := IntentRouterNode(g, intent);
            h.catalog == g.catalog && h.next.At? && h.next.node in {ChatMemory, PlanMemory, RevisionMemory}
  {
  }

  lemma ReflectionKeepsCatalog(g: Graph)
    requires Routed(g) && g.next == At(ProfileReflection)
    ensures var h := ProfileReflectionNode(g);
            h.catalog == g.catalog && !h.next.FanOut? && h.next != At(Clarification)
  {
  }

  lemma FanInKeepsCatalog(g: Graph)
    ensures FanInNode(g).catalog == g.catalog && FanInNode(g).next == At(ProfileReflection)
  {
  }

  lemma NodeKeepsCatalog(g: Graph, intent: Intent, complete: bool)
    requires Routed(g) && g.next.At? && !IsInterrupt(g.next.node) && g.next != At(RevisionRouter)
    ensures RunNode(g, intent, complete).catalog == g.catalog
    ensures !RunNode(g, intent, complete).next.FanOut? && RunNode(g, intent, complete).next != At(Clarification)
  {
    match g.next.node
    case IntentRouter => IntentKeepsCatalog(g, intent);
    case ProfileReflection => ReflectionKeepsCatalog(g);
    case FanIn => FanInKeepsCatalog(g);
    case _ =>
  }

  lemma CatalogKept(g: Graph, e: Event)
    requires Inv(g) && Enabled(g, e) && g.next !in {At(PlanReview), At(RevisionRouter), At(Clarification)}
    ensures NoRepeats(KindsOf(Do(g, e).catalog))
    ensures !Do(g, e).next.FanOut? && Do(g, e).next != At(Clarification)
  {
    if e.Resume? {
      AnswerKeepsCatalog(g, e.input);
    } else if e.Run? {
      NodeKeepsCatalog(g, e.intent, e.complete);
    }
  }

  lemma StepKeeps(g: Graph, e: Event)
    requires Inv(g) && Enabled(g, e)
    ensures Inv(Do(g, e))
  {
    StepRouted(g, e);
    if g.next == At(PlanReview) {
      PlanReviewKeeps(g, e.input);
    } else if g.next == At(RevisionRouter) {
      RevisionRouterKeeps(g);
    } else if g.next == At(Clarification) {
      ClarificationKeeps(g, e.input);
    } else {
      CatalogKept(g, e);
    }
  }

  lemma {:induction false} RunKeeps(g: Graph, events: seq<Event>)
    requires Inv(g) && Runs(g, events)
    ensures Inv(After(g, events))
    decreases |events|
  {
    if events != [] {
      var n := |events| - 1;
      RunKeeps(g, events[..n]);
      StepKeeps(After(g, events[..n]), events[n]);
    }
  }

  // ----- How a node is reached

  lemma AfterResume(g: Graph, input: Input)
    requires g.next.At? && IsInterrupt(g.next.node)
    ensures var next := ResumeNode(g, input).next;
            next.At? ==> next.node.MetadataStructer? || next.node.DesignMemory? || next.node.RevisionMemory?
  {
  }

  lemma IntoFanIn(g: Graph, e: Event)
    requires Routed(g) && Enabled(g, e)
    ensures Do(g, e).next == At(FanIn) ==> e.Finish?
  {
    if e.Resume? {
      AfterResume(g, e.input);
    }
  }

  lemma IntoLaunch(g: Graph, e: Event)
    requires Routed(g) && Enabled(g, e)
    ensures Do(g, e).next.FanOut? ==>
              if Do(g, e).next.mode.Create? then g.next == At(PlanReview) && e.input.Approve?
              else g.next == At(RevisionRouter) || g.next == At(Clarification)
  {
    if e.Run? && g.next.node.ProfileReflection? {
      assert !ProfileReflectionNode(g).next.FanOut?;
    }
  }

  lemma IntoReview(g: Graph, e: Event)
    requires Routed(g) && Enabled(g, e)
    ensures Do(g, e).next == At(PlanReview) ==> g.next == At(ProfileReflection) && GoesOnTo(g, At(PlanReview))
  {
    if e.Resume? {
      AfterResume(g, e.input);
    }
  }

  lemma IntoReflection(g: Graph, e: Event)
    requires Routed(g) && Enabled(g, e) && GoesOnTo(Do(g, e), At(PlanReview))
    ensures g.next == At(Planner)
  {
  }

  // ----- The jobs' updates

  function ResultOf(k: Kind, o: Outcome): JobResult {
    match o
    case Made(id) => JobResult(k, Ready, Some(id), None)
    case Raised(row, error) => JobResult(k, Failed, row, Some(error))
  }

  function ResultsOf(jobs: seq<(Kind, Outcome)>): seq<JobResult> {
    seq(|jobs|, i requires 0 <= i < |jobs| => ResultOf(jobs[i].0, jobs[i].1))
  }

  lemma {:induction false} MergedElsewhere(slots: map<Kind, JobResult>, g: Graph, mode: Mode, jobs: seq<(Kind, Outcome)>, k: Kind)
    requires forall i | 0 <= i < |jobs| :: jobs[i].0 != k
    ensures k in Merged(slots, g, mode, jobs) <==> k in slots
    ensures k in slots ==> Merged(slots, g, mode, jobs)[k] == slots[k]
  {
    if jobs != [] {
      MergedElsewhere(slots, g, mode, jobs[..|jobs| - 1], k);
    }
  }

  lemma {:induction false} MergedSlot(slots: map<Kind, JobResult>, g: Graph, mode: Mode, jobs: seq<(Kind, Outcome)>, i: nat)
    requires OncePerKind(jobs) && i < |jobs|
    ensures jobs[i].0 in Merged(slots, g, mode, jobs)
    ensures Merged(slots, g, mode, jobs)[jobs[i].0] == Reported(g, mode, jobs[i].0, jobs[i].1)
  {
    var n := |jobs| - 1;
    if i < n {
      MergedSlot(slots, g, mode, jobs[..n], i);
    }
  }

  // The state after the jobs does not depend on the order in which they complete.
  lemma MergeIgnoresOrder(g: Graph, a: seq<(Kind, Outcome)>, b: seq<(Kind, Outcome)>)
    requires g.next.FanOut? && Enabled(g, Finish(a)) && Enabled(g, Finish(b)) && SameMembers(a, b)
    ensures Do(g, Finish(a)) == Do(g, Finish(b))
  {
    var x, y := Merged(g.slots, g, g.next.mode, a), Merged(g.slots, g, g.next.mode, b);
    forall k
      ensures k in x <==> k in y
      ensures k in x ==> x[k] == y[k]
    {
      if k in g.next.kinds {
        var i :| 0 <= i < |a| && a[i].0 == k;
        assert a[i] in b;
        var j :| 0 <= j < |b| && b[j] == a[i];
        MergedSlot(g.slots, g, g.next.mode, a, i);
        MergedSlot(g.slots, g, g.next.mode, b, j);
      } else {
        MergedElsewhere(g.slots, g, g.next.mode, a, k);
        MergedElsewhere(g.slots, g, g.next.mode, b, k);
      }
    }
    assert x == y;
  }

  // ----- Fan-in reports this turn's jobs

  lemma {:induction false} Multiplicity<A>(s: seq<A>, x: A)
    requires NoRepeats(s)
    ensures multiset(s)[x] == if x in s then 1 else 0
  {
    if s != [] {
      var n := |s| - 1;
      Multiplicity(s[..n], x);
      assert s == s[..n] + [s[n]];
    }
  }

  lemma SameMultiset<A>(a: seq<A>, b: seq<A>)
    requires NoRepeats(a) && NoRepeats(b) && SameMembers(a, b)
    ensures multiset(a) == multiset(b)
  {
    forall x: A
      ensures multiset(a)[x] == multiset(b)[x]
    {
      Multiplicity(a, x);
      Multiplicity(b, x);
    }
  }

  lemma {:induction false} CollectedAll(slots: map<Kind, JobResult>, kinds: seq<Kind>)
    requires forall k | k in kinds :: k in slots && !slots[k].status.Pending?
    ensures Finished(Collected(slots, kinds)) == Collected(slots, kinds)
    ensures |Collected(slots, kinds)| == |kinds|
    ensures forall i | 0 <= i < |kinds| :: Collected(slots, kinds)[i] == slots[kinds[i]]
  {
    if kinds != [] {
      CollectedAll(slots, kinds[1..]);
      assert Collected(slots, kinds)[1..] == Collected(slots, kinds[1..]);
    }
  }

  // After the jobs, the slots that fan-in looks at hold the jobs' own results.
  lemma SlotsOfJobs(g: Graph, jobs: seq<(Kind, Outcome)>, k: Kind) returns (i: nat)
    requires Inv(g) && Enabled(g, Finish(jobs)) && k in TargetKinds(g)
    ensures i < |jobs| && jobs[i].0 == k
    ensures var slots := Merged(g.slots, g, g.next.mode, jobs);
            k in slots && slots[k] == ResultOf(k, jobs[i].1)
  {
    assert k in g.next.kinds;
    i :| 0 <= i < |jobs| && jobs[i].0 == k;
    MergedSlot(g.slots, g, g.next.mode, jobs, i);
  }

  lemma CollectedResults(g: Graph, jobs: seq<(Kind, Outcome)>, slots: map<Kind, JobResult>, collected: seq<JobResult>)
    requires Inv(g) && Enabled(g, Finish(jobs))
    requires slots == Merged(g.slots, g, g.next.mode, jobs) && collected == Collected(slots, TargetKinds(g))
    ensures Finished(collected) == collected
    ensures NoRepeats(collected) && SameMembers(collected, ResultsOf(jobs))
  {
    var kinds, results := TargetKinds(g), ResultsOf(jobs);
    forall k | k in kinds
      ensures k in slots && !slots[k].status.Pending? && slots[k].kind == k && slots[k] in results
    {
      var i := SlotsOfJobs(g, jobs, k);
      assert results[i] == slots[k];
    }
    CollectedAll(slots, kinds);
    CollectedOnce(slots, kinds, collected, results);
    forall i | 0 <= i < |jobs|
      ensures results[i] in collected
    {
      JobCollected(g, jobs, slots, collected, i);
    }
  }

  lemma CollectedOnce(slots: map<Kind, JobResult>, kinds: seq<Kind>, collected: seq<JobResult>, results: seq<JobResult>)
    requires NoRepeats(kinds) && |collected| == |kinds|
    requires forall k | k in kinds :: k in slots && slots[k].kind == k && slots[k] in results
    requires forall i | 0 <= i < |kinds| :: collected[i] == slots[kinds[i]]
    ensures NoRepeats(collected) && forall r | r in collected :: r in results
  {
    forall i, j | 0 <= i < j < |collected|
      ensures collected[i] != collected[j]
    {
      assert collected[i].kind == kinds[i] && collected[j].kind == kinds[j];
    }
  }

  lemma JobCollected(g: Graph, jobs: seq<(Kind, Outcome)>, slots: map<Kind, JobResult>, collected: seq<JobResult>, i: nat)
    requires Inv(g) && Enabled(g, Finish(jobs)) && i < |jobs|
    requires slots == Merged(g.slots, g, g.next.mode, jobs) && |collected| == |TargetKinds(g)|
    requires forall k | k in TargetKinds(g) :: k in slots
    requires forall j | 0 <= j < |collected| :: collected[j] == slots[TargetKinds(g)[j]]
    ensures ResultsOf(jobs)[i] in collected
  {
    var k := jobs[i].0;
    assert k in TargetKinds(g);
    var j :| 0 <= j < |collected| && TargetKinds(g)[j] == k;
    var t := SlotsOfJobs(g, jobs, k);
    assert t == i;
    assert collected[j] == ResultsOf(jobs)[i];
  }

  lemma FanInResults(g: Graph, jobs: seq<(Kind, Outcome)>, h: Graph)
    requires Inv(g) && g.next.FanOut? && Covers(jobs, g.next.kinds)
    requires h == g.(slots := Merged(g.slots, g, g.next.mode, jobs), next := At(FanIn))
    ensures var r := FanInNode(h);
            && multiset(r.results) == multiset(ResultsOf(jobs))
            && r.reports == h.reports + [Report(g.next.mode.Revise?, r.results)]
  {
    var kinds := TargetKinds(g);
    var collected := Collected(h.slots, kinds);
    CollectedResults(g, jobs, h.slots, collected);
    SameMultiset(collected, ResultsOf(jobs));
    assert g.next.kinds[0] in g.next.kinds;
    assert |collected| == |multiset(ResultsOf(jobs))| == |jobs|;
    assert TargetKinds(h) == kinds;
  }

  // Whenever a run reaches fan-in, the step before completed the jobs of one launch, and fan-in
  // reports exactly their results, one for each job, and none from an earlier turn.
  lemma FanInReportsThisTurn(events: seq<Event>, g: Graph)
    requires Runs(NEW_THREAD, events) && g == After(NEW_THREAD, events) && g.next == At(FanIn)
    ensures var n := |events| - 1;
            && n > 0 && events[n].Finish?
            && var launched, r := After(NEW_THREAD, events[..n]).next, FanInNode(g);
            && launched.FanOut? && Covers(events[n].jobs, launched.kinds)
            && multiset(r.results) == multiset(ResultsOf(events[n].jobs))
            && r.reports == g.reports + [Report(launched.mode.Revise?, r.results)]
  {
    var n := |events| - 1;
    var before := After(NEW_THREAD, events[..n]);
    RunKeeps(NEW_THREAD, events[..n]);
    IntoFanIn(before, events[n]);
    FanInResults(before, events[n].jobs, g);
  }

  // A revision job always finds the artifact it revises, and it is one of the catalogue's.
  lemma RevisionHasItsSource(events: seq<Event>, k: Kind)
    requires Runs(NEW_THREAD, events)
    requires var next := After(NEW_THREAD, events).next; next.FanOut? && next.mode.Revise? && k in next.kinds
    ensures exists a :: a in After(NEW_THREAD, events).sources && a.kind == k && a in After(NEW_THREAD, events).catalog
  {
    var n := |events| - 1;
    var g, before := After(NEW_THREAD, events), After(NEW_THREAD, events[..n]);
    RunKeeps(NEW_THREAD, events);
    RunKeeps(NEW_THREAD, events[..n]);
    IntoLaunch(before, events[n]);
    SourcesFromCatalog(before, events[n]);
    assert k in KindsOf(g.sources);
    var i :| 0 <= i < |g.sources| && KindsOf(g.sources)[i] == k;
    assert g.sources[i] in g.sources;
  }

  lemma SourcesFromCatalog(g: Graph, e: Event)
    requires Enabled(g, e) && (g.next == At(RevisionRouter) || g.next == At(Clarification)) && Do(g, e).next.FanOut?
    ensures forall a | a in Do(g, e).sources :: a in Do(g, e).catalog
  {
    if g.next == At(RevisionRouter) {
      MatchingInCatalog(g.catalog, InferredTargets(g.latest, g.catalog).value);
    }
  }

  lemma {:induction false} MatchingInCatalog(catalog: seq<Artifact>, kinds: seq<Kind>)
    ensures forall a :: a in Matching(catalog, kinds) <==> a in catalog && a.kind in kinds
  {
    if catalog != [] {
      MatchingInCatalog(catalog[1..], kinds);
    }
  }

  lemma {:induction false} MentionedExactly(text: Text, kinds: seq<Kind>, available: seq<Kind>)
    ensures forall k :: k in Mentioned(text, kinds, available) <==> k in kinds && k in text.mentioned && k in available
  {
    if kinds != [] {
      MentionedExactly(text, kinds[1..], available);
    }
  }

  // The message names an artifact that exists.
  predicate NamesOne(text: Text, catalog: seq<Artifact>) {
    exists a | a in catalog :: a.kind in text.mentioned
  }

  // A request for a revision is turned down only when there is nothing to revise; it asks back
  // exactly when there are several artifacts and it names none of them; otherwise it revises all
  // of them if it says so or names none, and else those it names.
  lemma RevisionSelects(g: Graph)
    requires NoRepeats(KindsOf(g.catalog))
    ensures RevisionRouterNode(g).next.End? <==> g.catalog == []
    ensures RevisionRouterNode(g).next == At(Clarification) <==>
            |g.catalog| > 1 && !g.latest.asksForAll && !NamesOne(g.latest, g.catalog)
    ensures RevisionRouterNode(g).next.FanOut? ==>
              forall a :: a in RevisionRouterNode(g).sources <==>
                a in g.catalog &&
                (g.latest.asksForAll || !NamesOne(g.latest, g.catalog) || a.kind in g.latest.mentioned)
  {
    if g.catalog != [] {
      InferredExactly(g.latest, g.catalog);
      var inferred := InferredTargets(g.latest, g.catalog);
      if inferred.Some? {
        MatchingInCatalog(g.catalog, inferred.value);
      }
    }
  }

  lemma InferredExactly(text: Text, catalog: seq<Artifact>)
    requires NoRepeats(KindsOf(catalog)) && catalog != []
    ensures InferredTargets(text, catalog).None? <==> |catalog| > 1 && !text.asksForAll && !NamesOne(text, catalog)
    ensures InferredTargets(text, catalog).Some? ==>
              var kinds := InferredTargets(text, catalog).value;
              && (forall a | a in catalog ::
                    a.kind in kinds <==> text.asksForAll || !NamesOne(text, catalog) || a.kind in text.mentioned)
              && exists a | a in catalog :: a.kind in kinds
  {
    var kinds := KindsOf(catalog);
    var explicit := Mentioned(text, ALL_KINDS, kinds);
    DeduplicatedNames(kinds);
    NormalizedExactly(None);
    MentionedExactly(text, ALL_KINDS, kinds);
    KindsInCatalog(catalog);
    NamedMeansExplicit(text, catalog, explicit);
    assert catalog[0] in catalog;
  }

  lemma KindsInCatalog(catalog: seq<Artifact>)
    ensures forall a | a in catalog :: a.kind in KindsOf(catalog)
    ensures forall k | k in KindsOf(catalog) :: exists a | a in catalog :: a.kind == k
  {
    forall a | a in catalog
      ensures a.kind in KindsOf(catalog)
    {
      var i :| 0 <= i < |catalog| && catalog[i] == a;
      assert KindsOf(catalog)[i] == a.kind;
    }
    forall k | k in KindsOf(catalog)
      ensures exists a | a in catalog :: a.kind == k
    {
      var i :| 0 <= i < |catalog| && KindsOf(catalog)[i] == k;
      assert catalog[i] in catalog && catalog[i].kind == k;
    }
  }

  lemma NamedMeansExplicit(text: Text, catalog: seq<Artifact>, explicit: seq<Kind>)
    requires forall k :: k in explicit <==> k in KindsOf(catalog) && k in text.mentioned
    ensures explicit != [] <==> NamesOne(text, catalog)
    ensures explicit != [] ==> exists a | a in catalog :: a.kind in explicit
  {
    KindsInCatalog(catalog);
    if explicit != [] {
      assert explicit[0] in explicit;
      var a :| a in catalog && a.kind == explicit[0];
    }
    if NamesOne(text, catalog) {
      var a :| a in catalog && a.kind in text.mentioned;
      assert a.kind in explicit;
    }
  }

  // While the jobs of a launch run, their slots are pending and no result is listed, and the
  // slots of other kinds are those of before the launch.
  lemma LaunchStartsClean(events: seq<Event>, g: Graph)
    requires Runs(NEW_THREAD, events) && g == After(NEW_THREAD, events) && g.next.FanOut?
    ensures events != [] && g.results == []
    ensures forall k | k in g.next.kinds :: k in g.slots && g.slots[k] == PendingResult(k)
    ensures var before := After(NEW_THREAD, events[..|events| - 1]);
            forall k | k !in g.next.kinds :: (k in g.slots <==> k in before.slots) &&
              (k in g.slots ==> g.slots[k] == before.slots[k])
  {
    var n := |events| - 1;
    RunKeeps(NEW_THREAD, events);
    RunKeeps(NEW_THREAD, events[..n]);
    LaunchTouchesOnly(After(NEW_THREAD, events[..n]), events[n]);
  }

  lemma LaunchTouchesOnly(g: Graph, e: Event)
    requires Routed(g) && Enabled(g, e)
    ensures var h := Do(g, e);
            h.next.FanOut? ==> forall k | k !in h.next.kinds ::
              (k in h.slots <==> k in g.slots) && (k in h.slots ==> h.slots[k] == g.slots[k])
  {
    IntoLaunch(g, e);
    if g.next == At(PlanReview) && e.input.Approve? {
      LaunchedExactly(Normalized(e.input.selected));
    } else if g.next == At(Clarification) {
      LaunchedExactly(KindsOf(g.catalog));
    } else if g.next == At(RevisionRouter) {
      LaunchedExactly(KindsOf(Do(g, e).sources));
    }
  }

  // ----- The slots of the results

  lemma {:induction false} MergedKeeps(slots: map<Kind, JobResult>, g: Graph, mode: Mode, jobs: seq<(Kind, Outcome)>)
    ensures forall k | k in slots :: k in Merged(slots, g, mode, jobs)
  {
    if jobs != [] {
      MergedKeeps(slots, g, mode, jobs[..|jobs| - 1]);
    }
  }

  // Once a thread has begun, every kind has a slot.
  predicate HasSlots(g: Graph) {
    g.started && forall k: Kind :: k in g.slots
  }

  lemma AllPending(slots: map<Kind, JobResult>)
    ensures forall k :: k in WithPending(slots, ALL_KINDS) && WithPending(slots, ALL_KINDS)[k] == PendingResult(k)
  {
    forall k
      ensures k in WithPending(slots, ALL_KINDS) && k in ALL_KINDS
    {
      match k
      case Ppt => assert ALL_KINDS[0] == k;
      case Docx => assert ALL_KINDS[1] == k;
      case HtmlGame => assert ALL_KINDS[2] == k;
    }
  }

  lemma StepGivesSlots(g: Graph, e: Event)
    requires Enabled(g, e) && (HasSlots(g) || (e.Fresh? && !g.started))
    ensures HasSlots(Do(g, e))
  {
    match e
    case Fresh(_, _) => AllPending(g.slots);
    case Finish(jobs) => MergedKeeps(g.slots, g, g.next.mode, jobs);
    case _ =>
  }

  lemma {:induction false} StartedHasSlots(events: seq<Event>)
    requires Runs(NEW_THREAD, events) && events != []
    ensures HasSlots(After(NEW_THREAD, events))
    decreases |events|
  {
    var n := |events| - 1;
    if n > 0 {
      StartedHasSlots(events[..n]);
    }
    StepGivesSlots(After(NEW_THREAD, events[..n]), events[n]);
  }

  lemma RunKeepsSlots(g: Graph, intent: Intent, complete: bool)
    requires g.next.At? && !IsInterrupt(g.next.node) && g.next != At(RevisionRouter)
    ensures RunNode(g, intent, complete).slots == g.slots
  {
  }

  lemma OthersKeepSlots(g: Graph, e: Event)
    requires Routed(g) && Enabled(g, e) && g.started && !e.Finish? && !Do(g, e).next.FanOut?
    ensures Do(g, e).slots == g.slots
  {
    if e.Run? && g.next != At(RevisionRouter) {
      RunKeepsSlots(g, e.intent, e.complete);
    }
  }

  // The slot of a kind changes only when a job of that kind is launched or completes.
  lemma SlotsKept(g: Graph, e: Event, k: Kind)
    requires Routed(g) && Enabled(g, e) && HasSlots(g)
    requires !(Do(g, e).next.FanOut? && k in Do(g, e).next.kinds) && !(e.Finish? && k in g.next.kinds)
    ensures k in Do(g, e).slots && Do(g, e).slots[k] == g.slots[k]
  {
    if e.Finish? {
      MergedElsewhere(g.slots, g, g.next.mode, e.jobs, k);
    } else if Do(g, e).next.FanOut? {
      LaunchTouchesOnly(g, e);
    } else {
      OthersKeepSlots(g, e);
    }
  }

  // A revision is reported as done only if there was something to revise.
  lemma RevisionNeedsSource(g: Graph, k: Kind, o: Outcome)
    ensures Reported(g, Revise, k, o).status == Ready <==> o.Made? && exists a | a in g.sources :: a.kind == k
    ensures Reported(g, Revise, k, o).status == Ready ==> Reported(g, Revise, k, o) == ResultOf(k, o)
  {
    KindsInCatalog(g.sources);
  }

  // ----- Generation needs an approval

  // A generation is launched only by an approval that answers the review of the plan that the
  // planner has just completed, for exactly the types the approval selects.
  lemma GenerationNeedsApproval(events: seq<Event>)
    requires Runs(NEW_THREAD, events)
    requires var next := After(NEW_THREAD, events).next; next.FanOut? && next.mode.Create?
    ensures var n := |events| - 1;
            && n >= 2 && events[n].Resume? && events[n].input.Approve?
            && After(NEW_THREAD, events[..n]).next == At(PlanReview)
            && After(NEW_THREAD, events[..n][..n - 1]).next == At(ProfileReflection)
            && After(NEW_THREAD, events[..n][..n - 1][..n - 2]).next == At(Planner)
    ensures var kinds, selected := After(NEW_THREAD, events).next.kinds, events[|events| - 1].input.selected;
            && kinds != [] && NoRepeats(kinds)
            && forall k :: k in kinds <==> selected.None? || Known(k) in selected.value
  {
    var n := |events| - 1;
    RunKeeps(NEW_THREAD, events[..n]);
    IntoLaunch(After(NEW_THREAD, events[..n]), events[n]);
    PlannedBefore(events[..n]);
    ApprovedKinds(After(NEW_THREAD, events[..n]), events[n].input);
  }

  lemma ApprovedKinds(g: Graph, input: Input)
    requires g.next == At(PlanReview) && input.Approve? && PlanReviewNode(g, input).next.FanOut?
    ensures var kinds := PlanReviewNode(g, input).next.kinds;
            && kinds != [] && NoRepeats(kinds)
            && forall k :: k in kinds <==> input.selected.None? || Known(k) in input.selected.value
  {
    NormalizedExactly(input.selected);
    LaunchedExactly(Normalized(input.selected));
  }

  lemma PlannedBefore(events: seq<Event>)
    requires Runs(NEW_THREAD, events) && After(NEW_THREAD, events).next == At(PlanReview)
    ensures var n := |events| - 1;
            && n >= 1 && After(NEW_THREAD, events[..n]).next == At(ProfileReflection)
            && After(NEW_THREAD, events[..n][..n - 1]).next == At(Planner)
  {
    var n := |events| - 1;
    RunKeeps(NEW_THREAD, events[..n]);
    IntoReview(After(NEW_THREAD, events[..n]), events[n]);
    RunKeeps(NEW_THREAD, events[..n][..n - 1]);
    IntoReflection(After(NEW_THREAD, events[..n][..n - 1]), events[..n][n - 1]);
  }

  // ... and such an approval launches one whenever it selects a type that exists.
  lemma ApprovalLaunches(g: Graph, input: Input)
    requires g.next == At(PlanReview)
    ensures var next := Do(g, Resume(input)).next;
            next.FanOut? <==> input.Approve? && (input.selected.None? || exists k :: Known(k) in input.selected.value)
    ensures !input.Approve? ==> Do(g, Resume(input)).next == At(DesignMemory)
  {
    if input.Approve? {
      NormalizedExactly(input.selected);
      var kinds := Normalized(input.selected);
      if kinds != [] && input.selected.Some? {
        assert kinds[0] in kinds;
        assert Known(kinds[0]) in input.selected.value;
      }
    }
  }

  // A design is under way, or waits for its review.
  predicate Designing(g: Graph) {
    (g.next.At? && (g.next.node.DesignMemory? || g.next.node.Rag? || g.next.node.Planner? || g.next.node.PlanReview?))
    || GoesOnTo(g, At(PlanReview))
  }

  lemma ResumedIntoDesigning(g: Graph, input: Input)
    requires Routed(g) && g.next.At? && IsInterrupt(g.next.node)
    ensures Designing(ResumeNode(g, input)) ==> Designing(g) || (g.next == At(MetadataReview) && input.Approve?)
  {
  }

  lemma RunIntoDesigning(g: Graph, intent: Intent, complete: bool)
    requires Routed(g) && g.next.At? && !IsInterrupt(g.next.node)
    ensures Designing(RunNode(g, intent, complete)) ==> Designing(g)
  {
  }

  lemma IntoDesigning(g: Graph, e: Event)
    requires Routed(g) && Enabled(g, e)
    ensures Designing(Do(g, e)) ==> Designing(g) || (g.next == At(MetadataReview) && e.input.Approve?)
  {
    match e
    case Resume(input) => ResumedIntoDesigning(g, input);
    case Run(intent, complete) => RunIntoDesigning(g, intent, complete);
    case _ =>
  }

  // Nothing is designed, and so nothing generated, in a thread whose teacher has not approved
  // the extracted teaching metadata.
  lemma {:induction false} DesigningNeedsMetadata(events: seq<Event>) returns (i: nat)
    requires Runs(NEW_THREAD, events) && Designing(After(NEW_THREAD, events))
    ensures i < |events| && Runs(NEW_THREAD, events[..i])
    ensures After(NEW_THREAD, events[..i]).next == At(MetadataReview)
    ensures events[i].Resume? && events[i].input.Approve?
    decreases |events|
  {
    var n := |events| - 1;
    RunKeeps(NEW_THREAD, events[..n]);
    IntoDesigning(After(NEW_THREAD, events[..n]), events[n]);
    if Designing(After(NEW_THREAD, events[..n])) {
      i := DesigningNeedsMetadata(events[..n]);
      assert events[..n][..i] == events[..i];
    } else {
      i := n;
    }
  }

  // ----- Every turn ends

  function Rank(g: Graph): nat {
    match g.next
    case End => 0
    case FanOut(_, _) => 4
    case At(n) =>
      match n
      case ProfileLoad => 8
      case IntentRouter => 7
      case RevisionMemory => 6
      case RevisionRouter => 5
      case ChatMemory => 3
      case Chat => 2
      case PlanMemory => 4
      case DesignMemory => 4
      case MetadataStructer => 3
      case FollowUp => 2
      case Rag => 3
      case Planner => 2
      case FanIn => 3
      case ProfileReflection => if g.reflectionGoto.None? then 2 else 1
      case ExperienceReflection => 1
      case UserInput => 0
      case MetadataReview => 0
      case PlanReview => 0
      case Clarification => 0
  }

  // An event from outside, which starts a turn.
  predicate StartsTurn(e: Event) {
    e.Fresh? || e.Resume?
  }

  lemma RouterDescends(g: Graph)
    ensures Rank(RevisionRouterNode(g)) <= 4
  {
  }

  lemma ReflectionDescends(g: Graph)
    requires Routed(g) && g.next == At(ProfileReflection)
    ensures Rank(ProfileReflectionNode(g)) < Rank(g)
  {
  }

  lemma FanInDescends(g: Graph)
    requires Routed(g) && g.next == At(FanIn)
    ensures Rank(FanInNode(g)) < Rank(g)
  {
  }

  lemma NodeDescends(g: Graph, intent: Intent, complete: bool)
    requires Routed(g) && g.next.At? && !IsInterrupt(g.next.node)
    ensures Rank(RunNode(g, intent, complete)) < Rank(g)
  {
    match g.next.node
    case RevisionRouter => RouterDescends(g);
    case ProfileReflection => ReflectionDescends(g);
    case FanIn => FanInDescends(g);
    case IntentRouter => assert Rank(IntentRouterNode(g, intent)) <= 6;
    case _ =>
  }

  lemma StepDescends(g: Graph, e: Event)
    requires Routed(g) && Enabled(g, e) && !StartsTurn(e)
    ensures Rank(Do(g, e)) < Rank(g)
  {
    if e.Run? {
      NodeDescends(g, e.intent, e.complete);
    }
  }

  // A turn takes at most as many steps as its first state's rank, which is never above 8, and
  // it never stops before the end or an interrupt.
  lemma {:induction false} TurnsEnd(g: Graph, events: seq<Event>)
    requires Inv(g) && Runs(g, events) && forall i | 0 <= i < |events| :: !StartsTurn(events[i])
    ensures |events| + Rank(After(g, events)) <= Rank(g) <= 8
    decreases |events|
  {
    if events != [] {
      var n := |events| - 1;
      TurnsEnd(g, events[..n]);
      RunKeeps(g, events[..n]);
      StepDescends(After(g, events[..n]), events[n]);
    }
  }

  lemma SomethingToRun(g: Graph) returns (e: Event)
    requires Inv(g) && !g.next.End? && !(g.next.At? && IsInterrupt(g.next.node))
    ensures Enabled(g, e) && !StartsTurn(e)
  {
    match g.next
    case At(_) => e := Run(NormalChat, true);
    case FanOut(_, kinds) =>
      var jobs := seq(|kinds|, i requires 0 <= i < |kinds| => (kinds[i], Raised(None, "")));
      forall k | k in kinds
        ensures exists i :: 0 <= i < |jobs| && jobs[i].0 == k
      {
        var i :| 0 <= i < |kinds| && kinds[i] == k;
        assert jobs[i].0 == k;
      }
      e := Finish(jobs);
  }

  // The stored successor of the reflection is consumed by the reflection that follows it, so
  // that a fan-in always goes on to the experience reflection, and the turn ends.
  lemma FanInEndsTheTurn(events: seq<Event>, g: Graph)
    requires Runs(NEW_THREAD, events) && g == After(NEW_THREAD, events) && g.next == At(FanIn)
    ensures FanInNode(g).next == At(ProfileReflection)
    ensures ProfileReflectionNode(FanInNode(g)).next == At(ExperienceReflection)
  {
    RunKeeps(NEW_THREAD, events);
  }
}
