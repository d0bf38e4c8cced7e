/** Which nodes a turn of the teaching workflow visits, from the event that starts it to the end
    or the interrupt at which it stops. */
module WorkflowTurns {
  import opened Options
  import opened Workflow
  import opened WorkflowRuns

  predicate Stopped(next: Next) {
    next.End? || (next.At? && IsInterrupt(next.node))
  }

  // The states of a run, before and after each event.
  ghost predicate Traced(trace: seq<Graph>, events: seq<Event>) {
    && |trace| == |events| + 1
    && forall i {:trigger events[i]} | 0 <= i < |events| :: Enabled(trace[i], events[i]) && trace[i + 1] == Do(trace[i], events[i])
  }

  // A whole turn.
  ghost predicate Turn(trace: seq<Graph>, events: seq<Event>) {
    && Traced(trace, events) && events != [] && Inv(trace[0]) && Stopped(trace[|events|].next)
    && StartsTurn(events[0]) && forall i | 1 <= i < |events| :: !StartsTurn(events[i])
  }

  lemma TracedMore(trace: seq<Graph>, events: seq<Event>, e: Event)
    requires Traced(trace, events) && Enabled(trace[|events|], e)
    ensures Traced(trace + [Do(trace[|events|], e)], events + [e])
  {
    var more := trace + [Do(trace[|events|], e)];
    forall i | 0 <= i < |events + [e]|
      ensures Enabled(more[i], (events + [e])[i]) && more[i + 1] == Do(more[i], (events + [e])[i])
    {
      if i < |events| {
        assert events[i] == (events + [e])[i];
      }
    }
  }

  lemma TracedPart(trace: seq<Graph>, events: seq<Event>, from: nat, to: nat)
    requires Traced(trace, events) && from <= to <= |events|
    ensures Traced(trace[from..to + 1], events[from..to])
  {
    var part, es := trace[from..to + 1], events[from..to];
    forall i | 0 <= i < |es|
      ensures Enabled(part[i], es[i]) && part[i + 1] == Do(part[i], es[i])
    {
      assert es[i] == events[from + i];
    }
  }

  // Every run has a trace ...
  lemma {:induction false} TraceOf(g: Graph, events: seq<Event>) returns (trace: seq<Graph>)
    requires Runs(g, events)
    ensures Traced(trace, events) && trace[0] == g && trace[|events|] == After(g, events)
    decreases |events|
  {
    if events == [] {
      trace := [g];
    } else {
      var n := |events| - 1;
      var before := TraceOf(g, events[..n]);
      TracedMore(before, events[..n], events[n]);
      trace := before + [After(g, events)];
      assert events == events[..n] + [events[n]];
    }
  }

  lemma {:induction false} InvAlong(trace: seq<Graph>, events: seq<Event>, i: nat)
    requires Traced(trace, events) && Inv(trace[0]) && i < |trace|
    ensures Inv(trace[i])
  {
    if i > 0 {
      InvAlong(trace, events, i - 1);
      assert Enabled(trace[i - 1], events[i - 1]);
      StepKeeps(trace[i - 1], events[i - 1]);
    }
  }

  // ... and every part of it, from where a turn starts to where it stops, is a turn.
  lemma TurnOfTrace(trace: seq<Graph>, events: seq<Event>, from: nat, to: nat)
    requires Traced(trace, events) && Inv(trace[0]) && from < to <= |events| && Stopped(trace[to].next)
    requires StartsTurn(events[from]) && forall i | from < i < to :: !StartsTurn(events[i])
    ensures Turn(trace[from..to + 1], events[from..to])
  {
    InvAlong(trace, events, from);
    TracedPart(trace, events, from, to);
  }

  // What runs next in each state.
  function Visited(trace: seq<Graph>): seq<Next> {
    seq(|trace|, i requires 0 <= i < |trace| => trace[i].next)
  }

  lemma VisitedCons(trace: seq<Graph>, i: nat)
    requires i < |trace|
    ensures Visited(trace[i..]) == [trace[i].next] + Visited(trace[i + 1..])
    ensures i + 1 == |trace| ==> Visited(trace[i..]) == [trace[i].next]
  {
  }

  // ----- One step of a turn

  // The nodes with a single successor, or one that depends on the metadata alone.
  predicate Plain(n: Node) {
    !IsInterrupt(n) && n !in {IntentRouter, RevisionRouter, ProfileReflection}
  }

  function Successor(n: Node, complete: bool): Next
    requires Plain(n)
  {
    match n
    case ProfileLoad => At(IntentRouter)
    case ChatMemory => At(Chat)
    case PlanMemory => At(MetadataStructer)
    case DesignMemory => At(Rag)
    case RevisionMemory => At(RevisionRouter)
    case Chat => At(ProfileReflection)
    case MetadataStructer => if complete then At(MetadataReview) else At(FollowUp)
    case FollowUp => At(ProfileReflection)
    case Rag => At(Planner)
    case Planner => At(ProfileReflection)
    case FanIn => At(ProfileReflection)
    case ExperienceReflection => End
  }

  // Where the reflection after the node goes on.
  function Stores(n: Node): Option<Next> {
    match n
    case Chat => Some(End)
    case FollowUp => Some(At(UserInput))
    case Planner => Some(At(PlanReview))
    case _ => None
  }

  lemma PlainNode(h: Graph, intent: Intent, complete: bool)
    requires Routed(h) && h.next.At? && Plain(h.next.node)
    ensures var r := RunNode(h, intent, complete);
            && r.next == Successor(h.next.node, complete) && r.reflectionGoto == Stores(h.next.node)
            && r.complete == if h.next.node.MetadataStructer? then complete else h.complete
  {
  }

  // A turn that has not stopped goes on.
  lemma GoesOn(trace: seq<Graph>, events: seq<Event>, i: nat)
    requires Turn(trace, events) && 1 <= i < |trace| && !Stopped(trace[i].next)
    ensures i < |events| && !StartsTurn(events[i]) && Enabled(trace[i], events[i]) && trace[i + 1] == Do(trace[i], events[i])
    ensures Inv(trace[i]) && Visited(trace[i..]) == [trace[i].next] + Visited(trace[i + 1..])
  {
    InvAlong(trace, events, i);
    VisitedCons(trace, i);
  }

  lemma NodeRuns(trace: seq<Graph>, events: seq<Event>, i: nat)
    requires Turn(trace, events) && 1 <= i < |trace| && trace[i].next.At? && !IsInterrupt(trace[i].next.node)
    ensures i < |events| && events[i].Run? && trace[i + 1] == RunNode(trace[i], events[i].intent, events[i].complete)
    ensures Inv(trace[i]) && Visited(trace[i..]) == [trace[i].next] + Visited(trace[i + 1..])
  {
    GoesOn(trace, events, i);
  }

  lemma PlainRuns(trace: seq<Graph>, events: seq<Event>, i: nat)
    requires Turn(trace, events) && 1 <= i < |trace| && trace[i].next.At? && Plain(trace[i].next.node)
    ensures i < |events| && events[i].Run?
    ensures trace[i + 1].next == Successor(trace[i].next.node, events[i].complete)
    ensures trace[i + 1].reflectionGoto == Stores(trace[i].next.node)
    ensures trace[i + 1].complete == if trace[i].next.node.MetadataStructer? then events[i].complete else trace[i].complete
    ensures Visited(trace[i..]) == [trace[i].next] + Visited(trace[i + 1..])
  {
    NodeRuns(trace, events, i);
    PlainNode(trace[i], events[i].intent, events[i].complete);
  }

  // One that has stopped is over.
  lemma Over(trace: seq<Graph>, events: seq<Event>, i: nat)
    requires Turn(trace, events) && 1 <= i < |trace| && Stopped(trace[i].next)
    ensures i == |events| && Visited(trace[i..]) == [trace[i].next]
  {
    forall j | 1 <= j < |events|
      ensures !Stopped(trace[j].next)
    {
      assert Enabled(trace[j], events[j]) && !StartsTurn(events[j]);
    }
    VisitedCons(trace, i);
  }

  // ----- What a turn goes by

  // What was said last: the message, the text of an answer, or what was said before an approval.
  function Said(g: Graph, e: Event): Text
    requires Enabled(g, e) && StartsTurn(e)
  {
    match e
    case Fresh(message, _) => message
    case Resume(Message(text)) => text
    case Resume(WithAttachment(text)) => text
    case Resume(Approve(_)) => if g.next == At(UserInput) then NO_TEXT else g.latest
  }

  function Listed(g: Graph, e: Event): seq<Artifact> {
    if e.Fresh? then e.catalog else g.catalog
  }

  lemma StartIsTaken(g: Graph, e: Event)
    requires Enabled(g, e) && StartsTurn(e)
    ensures Do(g, e).latest == Said(g, e) && Do(g, e).catalog == Listed(g, e)
  {
  }

  lemma NodeKeepsStart(g: Graph, intent: Intent, complete: bool)
    requires g.next.At? && !IsInterrupt(g.next.node)
    ensures RunNode(g, intent, complete).latest == g.latest && RunNode(g, intent, complete).catalog == g.catalog
  {
    if g.next.node.RevisionRouter? {
      RouterKeepsStart(g);
    }
  }

  lemma RouterKeepsStart(g: Graph)
    ensures RevisionRouterNode(g).latest == g.latest && RevisionRouterNode(g).catalog == g.catalog
  {
  }

  lemma StepKeepsStart(g: Graph, e: Event)
    requires Enabled(g, e) && !StartsTurn(e)
    ensures Do(g, e).latest == g.latest && Do(g, e).catalog == g.catalog
  {
    if e.Run? {
      NodeKeepsStart(g, e.intent, e.complete);
    }
  }

  // Throughout a turn, what was said last and the catalogue are those of its start.
  lemma {:induction false} TurnKeepsStart(trace: seq<Graph>, events: seq<Event>, i: nat)
    requires Turn(trace, events) && 1 <= i < |trace|
    ensures Enabled(trace[0], events[0])
    ensures trace[i].latest == Said(trace[0], events[0]) && trace[i].catalog == Listed(trace[0], events[0])
  {
    assert Enabled(trace[0], events[0]);
    if i == 1 {
      StartIsTaken(trace[0], events[0]);
    } else {
      TurnKeepsStart(trace, events, i - 1);
      assert Enabled(trace[i - 1], events[i - 1]) && !StartsTurn(events[i - 1]);
      StepKeepsStart(trace[i - 1], events[i - 1]);
    }
  }

  // ----- The stretches that turns are made of

  const REFLECTION := [At(ProfileReflection), At(ExperienceReflection), End]

  lemma FromReflection(trace: seq<Graph>, events: seq<Event>, i: nat)
    requires Turn(trace, events) && 1 <= i < |trace| && trace[i].next == At(ProfileReflection)
    ensures Visited(trace[i..]) ==
            match trace[i].reflectionGoto
            case None => REFLECTION
            case Some(x) => [At(ProfileReflection), x]
  {
    NodeRuns(trace, events, i);
    if trace[i].reflectionGoto.None? {
      PlainRuns(trace, events, i + 1);
      Over(trace, events, i + 2);
    } else {
      Over(trace, events, i + 1);
    }
  }

  lemma FromChat(trace: seq<Graph>, events: seq<Event>, i: nat)
    requires Turn(trace, events) && 1 <= i < |trace| && trace[i].next == At(ChatMemory)
    ensures Visited(trace[i..]) == [At(ChatMemory), At(Chat), At(ProfileReflection), End]
  {
    PlainRuns(trace, events, i);
    PlainRuns(trace, events, i + 1);
    FromReflection(trace, events, i + 2);
  }

  // The metadata is extracted. What is still missing is asked for; once nothing is, they are put
  // up for review.
  function Extraction(complete: bool): seq<Next> {
    if complete then [At(MetadataStructer), At(MetadataReview)]
    else [At(MetadataStructer), At(FollowUp), At(ProfileReflection), At(UserInput)]
  }

  lemma FromMetadata(trace: seq<Graph>, events: seq<Event>, i: nat)
    requires Turn(trace, events) && 1 <= i < |trace| && trace[i].next == At(MetadataStructer)
    ensures i < |events| && events[i].Run? && Visited(trace[i..]) == Extraction(events[i].complete)
  {
    PlainRuns(trace, events, i);
    if events[i].complete {
      Over(trace, events, i + 1);
    } else {
      FromFollowUp(trace, events, i + 1);
    }
  }

  lemma FromFollowUp(trace: seq<Graph>, events: seq<Event>, i: nat)
    requires Turn(trace, events) && 1 <= i < |trace| && trace[i].next == At(FollowUp)
    ensures Visited(trace[i..]) == [At(FollowUp), At(ProfileReflection), At(UserInput)]
  {
    PlainRuns(trace, events, i);
    FromReflection(trace, events, i + 1);
  }

  const DESIGN := [At(DesignMemory), At(Rag), At(Planner), At(ProfileReflection), At(PlanReview)]

  lemma FromDesign(trace: seq<Graph>, events: seq<Event>, i: nat)
    requires Turn(trace, events) && 1 <= i < |trace| && trace[i].next == At(DesignMemory)
    ensures Visited(trace[i..]) == DESIGN
  {
    PlainRuns(trace, events, i);
    FromRag(trace, events, i + 1);
  }

  lemma FromRag(trace: seq<Graph>, events: seq<Event>, i: nat)
    requires Turn(trace, events) && 1 <= i < |trace| && trace[i].next == At(Rag)
    ensures Visited(trace[i..]) == [At(Rag), At(Planner), At(ProfileReflection), At(PlanReview)]
  {
    PlainRuns(trace, events, i);
    FromPlanner(trace, events, i + 1);
  }

  lemma FromPlanner(trace: seq<Graph>, events: seq<Event>, i: nat)
    requires Turn(trace, events) && 1 <= i < |trace| && trace[i].next == At(Planner)
    ensures Visited(trace[i..]) == [At(Planner), At(ProfileReflection), At(PlanReview)]
  {
    PlainRuns(trace, events, i);
    FromReflection(trace, events, i + 1);
  }

  // Jobs, the report of their results, and the reflections.
  function Jobs(mode: Mode, kinds: seq<Kind>): seq<Next> {
    [FanOut(mode, kinds), At(FanIn)] + REFLECTION
  }

  lemma FromJobs(trace: seq<Graph>, events: seq<Event>, i: nat)
    requires Turn(trace, events) && 1 <= i < |trace| && trace[i].next.FanOut?
    ensures Visited(trace[i..]) == Jobs(trace[i].next.mode, trace[i].next.kinds)
  {
    GoesOn(trace, events, i);
    PlainRuns(trace, events, i + 1);
    FromReflection(trace, events, i + 2);
  }

  // How a request for a revision goes on: there is nothing to revise, or it is not clear what to
  // revise, or the jobs are launched.
  predicate Unclear(text: Text, catalog: seq<Artifact>) {
    |catalog| > 1 && !text.asksForAll && !NamesOne(text, catalog)
  }

  predicate ToRevise(text: Text, catalog: seq<Artifact>, k: Kind) {
    (exists a | a in catalog :: a.kind == k) && (text.asksForAll || !NamesOne(text, catalog) || k in text.mentioned)
  }

  ghost predicate Revises(text: Text, catalog: seq<Artifact>, nexts: seq<Next>) {
    if catalog == [] then nexts == [At(RevisionMemory), At(RevisionRouter), End]
    else if Unclear(text, catalog) then nexts == [At(RevisionMemory), At(RevisionRouter), At(Clarification)]
    else exists kinds ::
        && nexts == [At(RevisionMemory), At(RevisionRouter)] + Jobs(Revise, kinds)
        && NoRepeats(kinds) && forall k :: k in kinds <==> ToRevise(text, catalog, k)
  }

  lemma FromRevision(trace: seq<Graph>, events: seq<Event>, i: nat)
    requires Turn(trace, events) && 1 <= i < |trace| && trace[i].next == At(RevisionMemory)
    ensures Revises(trace[i].latest, trace[i].catalog, Visited(trace[i..]))
  {
    PlainRuns(trace, events, i);
    TurnKeepsStart(trace, events, i);
    TurnKeepsStart(trace, events, i + 1);
    FromRouter(trace, events, i + 1);
    if trace[i + 2].next.FanOut? {
      Launches(trace[i].latest, trace[i].catalog, trace[i + 2].next.kinds, Visited(trace[i..]));
    }
  }

  lemma FromRouter(trace: seq<Graph>, events: seq<Event>, i: nat)
    requires Turn(trace, events) && 1 <= i < |trace| && trace[i].next == At(RevisionRouter)
    ensures i + 1 < |trace|
    ensures var next := trace[i + 1].next;
            && Visited(trace[i..]) == [At(RevisionRouter)] + (if next.FanOut? then Jobs(next.mode, next.kinds) else [next])
            && if trace[i].catalog == [] then next == End
               else if Unclear(trace[i].latest, trace[i].catalog) then next == At(Clarification)
               else next.FanOut? && next.mode == Revise && NoRepeats(next.kinds)
                    && forall k :: k in next.kinds <==> ToRevise(trace[i].latest, trace[i].catalog, k)
  {
    NodeRuns(trace, events, i);
    RevisionGoesOn(trace[i]);
    if trace[i + 1].next.FanOut? {
      FromJobs(trace, events, i + 1);
    } else {
      Over(trace, events, i + 1);
    }
  }

  lemma Launches(text: Text, catalog: seq<Artifact>, kinds: seq<Kind>, nexts: seq<Next>)
    requires catalog != [] && !Unclear(text, catalog)
    requires nexts == [At(RevisionMemory)] + ([At(RevisionRouter)] + Jobs(Revise, kinds))
    requires NoRepeats(kinds) && forall k :: k in kinds <==> ToRevise(text, catalog, k)
    ensures Revises(text, catalog, nexts)
  {
    assert nexts == [At(RevisionMemory), At(RevisionRouter)] + Jobs(Revise, kinds);
  }

  lemma RevisionGoesOn(h: Graph)
    requires h.next == At(RevisionRouter) && NoRepeats(KindsOf(h.catalog))
    ensures var next := RevisionRouterNode(h).next;
            if h.catalog == [] then next == End
            else if Unclear(h.latest, h.catalog) then next == At(Clarification)
            else next.FanOut? && next.mode == Revise && NoRepeats(next.kinds) && forall k :: k in next.kinds <==> ToRevise(h.latest, h.catalog, k)
    ensures forall intent, complete :: RunNode(h, intent, complete) == RevisionRouterNode(h)
  {
    RevisionSelects(h);
    if RevisionRouterNode(h).next.FanOut? {
      RevisedKinds(h);
    } else {
      RevisionStops(h);
    }
  }

  lemma RevisionStops(h: Graph)
    requires !RevisionRouterNode(h).next.FanOut?
    ensures RevisionRouterNode(h).next in {End, At(Clarification)}
  {
  }

  lemma RevisedKinds(h: Graph)
    requires NoRepeats(KindsOf(h.catalog)) && RevisionRouterNode(h).next.FanOut?
    ensures var next := RevisionRouterNode(h).next;
            next.mode == Revise && NoRepeats(next.kinds) && forall k :: k in next.kinds <==> ToRevise(h.latest, h.catalog, k)
  {
    var sources := RevisionRouterNode(h).sources;
    RevisionSelects(h);
    LaunchedExactly(KindsOf(sources));
    KindsInCatalog(sources);
    SelectedKinds(h.latest, h.catalog, sources);
  }

  lemma SelectedKinds(text: Text, catalog: seq<Artifact>, sources: seq<Artifact>)
    requires forall a :: a in sources <==> a in catalog && (text.asksForAll || !NamesOne(text, catalog) || a.kind in text.mentioned)
    ensures forall k :: ToRevise(text, catalog, k) <==> exists a | a in sources :: a.kind == k
  {
    forall k
      ensures ToRevise(text, catalog, k) <==> exists a | a in sources :: a.kind == k
    {
      if ToRevise(text, catalog, k) {
        var a :| a in catalog && a.kind == k;
        assert a in sources;
      }
    }
  }

  // ----- Whole turns

  // What a message is taken for; a request for a revision is recognised without asking the model
  // when there is something to revise.
  function TakenFor(message: Text, catalog: seq<Artifact>, decision: Intent): Intent {
    if catalog != [] && message.asksRevision then ArtifactRevision else decision
  }

  lemma Routes(h: Graph, decision: Intent, complete: bool)
    requires h.next == At(IntentRouter)
    ensures var r := RunNode(h, decision, complete);
            && r.intent == TakenFor(h.latest, h.catalog, decision)
            && r.next == match TakenFor(h.latest, h.catalog, decision)
                         case NormalChat => At(ChatMemory)
                         case TeachingPlan => At(PlanMemory)
                         case ArtifactRevision => At(RevisionMemory)
  {
  }

  // A fresh message.
  lemma FreshTurnStarts(trace: seq<Graph>, events: seq<Event>)
    requires Turn(trace, events) && events[0].Fresh?
    ensures |events| > 3 && events[2].Run?
    ensures Visited(trace) == [End, At(ProfileLoad), At(IntentRouter)] + Visited(trace[3..])
    ensures trace[3].latest == events[0].message && trace[3].catalog == events[0].catalog
    ensures trace[3].intent == TakenFor(events[0].message, events[0].catalog, events[2].intent)
    ensures trace[3].next == match TakenFor(events[0].message, events[0].catalog, events[2].intent)
                             case NormalChat => At(ChatMemory)
                             case TeachingPlan => At(PlanMemory)
                             case ArtifactRevision => At(RevisionMemory)
  {
    assert Enabled(trace[0], events[0]);
    VisitedCons(trace, 0);
    assert trace[0..] == trace;
    PlainRuns(trace, events, 1);
    NodeRuns(trace, events, 2);
    TurnKeepsStart(trace, events, 2);
    TurnKeepsStart(trace, events, 3);
    Routes(trace[2], events[2].intent, events[2].complete);
    NodeRuns(trace, events, 3);
  }

  // One that is taken for chat is answered, and that is all.
  lemma ChatTurnVisits(trace: seq<Graph>, events: seq<Event>)
    requires Turn(trace, events) && events[0].Fresh?
    requires |events| > 2 && events[2].Run? && TakenFor(events[0].message, events[0].catalog, events[2].intent) == NormalChat
    ensures Visited(trace) == [End, At(ProfileLoad), At(IntentRouter), At(ChatMemory), At(Chat), At(ProfileReflection), End]
  {
    FreshTurnStarts(trace, events);
    FromChat(trace, events, 3);
  }

  // One that is taken for a request for a plan has its metadata extracted.
  lemma PlanTurnVisits(trace: seq<Graph>, events: seq<Event>)
    requires Turn(trace, events) && events[0].Fresh?
    requires |events| > 2 && events[2].Run? && TakenFor(events[0].message, events[0].catalog, events[2].intent) == TeachingPlan
    ensures |events| > 4 && events[4].Run?
    ensures Visited(trace) == [End, At(ProfileLoad), At(IntentRouter), At(PlanMemory)] + Extraction(events[4].complete)
  {
    FreshTurnStarts(trace, events);
    PlainRuns(trace, events, 3);
    FromMetadata(trace, events, 4);
  }

  // One that is taken for a request for a revision gets to the jobs, to a question, or nowhere.
  lemma RevisionTurnVisits(trace: seq<Graph>, events: seq<Event>)
    requires Turn(trace, events) && events[0].Fresh?
    requires |events| > 2 && events[2].Run? && TakenFor(events[0].message, events[0].catalog, events[2].intent) == ArtifactRevision
    ensures |trace| > 3 && Visited(trace) == [End, At(ProfileLoad), At(IntentRouter)] + Visited(trace[3..])
    ensures Revises(events[0].message, events[0].catalog, Visited(trace[3..]))
  {
    FreshTurnStarts(trace, events);
    FromRevision(trace, events, 3);
  }

  lemma Answered(trace: seq<Graph>, events: seq<Event>)
    requires Turn(trace, events) && events[0].Resume?
    ensures |trace| > 1 && trace[0].next.At? && IsInterrupt(trace[0].next.node) && trace[1] == ResumeNode(trace[0], events[0].input)
    ensures Visited(trace) == [trace[0].next] + Visited(trace[1..])
  {
    assert Enabled(trace[0], events[0]);
    VisitedCons(trace, 0);
    assert trace[0..] == trace;
  }

  // The answer to a question: the metadata is extracted again.
  lemma UserInputTurnVisits(trace: seq<Graph>, events: seq<Event>)
    requires Turn(trace, events) && events[0].Resume? && trace[0].next == At(UserInput)
    ensures |events| > 1 && events[1].Run? && Visited(trace) == [At(UserInput)] + Extraction(events[1].complete)
  {
    Answered(trace, events);
    FromMetadata(trace, events, 1);
  }

  // The review of the metadata: an approval leads to a design and its review, anything else to
  // extracting the metadata again.
  lemma MetadataReviewTurnVisits(trace: seq<Graph>, events: seq<Event>)
    requires Turn(trace, events) && events[0].Resume? && trace[0].next == At(MetadataReview)
    ensures events[0].input.Approve? ==> Visited(trace) == [At(MetadataReview)] + DESIGN
    ensures !events[0].input.Approve? ==>
              |events| > 1 && events[1].Run? && Visited(trace) == [At(MetadataReview)] + Extraction(events[1].complete)
  {
    Answered(trace, events);
    if events[0].input.Approve? {
      FromDesign(trace, events, 1);
    } else {
      FromMetadata(trace, events, 1);
    }
  }

  // The review of the plan: an approval launches what it selects, or ends the turn if that is
  // nothing; anything else leads to another design.
  lemma PlanReviewTurnVisits(trace: seq<Graph>, events: seq<Event>) returns (kinds: seq<Kind>)
    requires Turn(trace, events) && events[0].Resume? && trace[0].next == At(PlanReview)
    ensures NoRepeats(kinds)
    ensures events[0].input.Approve? ==>
              forall k :: k in kinds <==> events[0].input.selected.None? || Known(k) in events[0].input.selected.value
    ensures events[0].input.Approve? ==>
              Visited(trace) == [At(PlanReview)] + if kinds == [] then [End] else Jobs(Create, kinds)
    ensures !events[0].input.Approve? ==> Visited(trace) == [At(PlanReview)] + DESIGN
  {
    Answered(trace, events);
    kinds := [];
    if !events[0].input.Approve? {
      FromDesign(trace, events, 1);
    } else {
      NormalizedExactly(events[0].input.selected);
      LaunchedExactly(Normalized(events[0].input.selected));
      if trace[1].next.FanOut? {
        kinds := trace[1].next.kinds;
        FromJobs(trace, events, 1);
      } else {
        Over(trace, events, 1);
      }
    }
  }

  // The question what to revise: an approval revises everything that there is, anything else is
  // looked at as the request was.
  lemma ClarificationTurnVisits(trace: seq<Graph>, events: seq<Event>) returns (kinds: seq<Kind>)
    requires Turn(trace, events) && events[0].Resume? && trace[0].next == At(Clarification)
    ensures events[0].input.Approve? ==>
              && Visited(trace) == [At(Clarification)] + Jobs(Revise, kinds) && trace[1].sources == trace[0].catalog
              && NoRepeats(kinds) && forall k :: k in kinds <==> exists a | a in trace[0].catalog :: a.kind == k
    ensures !events[0].input.Approve? ==>
              && |trace| > 1 && Visited(trace) == [At(Clarification)] + Visited(trace[1..])
              && Revises(events[0].input.text, trace[0].catalog, Visited(trace[1..]))
  {
    Answered(trace, events);
    kinds := [];
    if events[0].input.Approve? {
      kinds := trace[1].next.kinds;
      LaunchedExactly(KindsOf(trace[0].catalog));
      KindsInCatalog(trace[0].catalog);
      FromJobs(trace, events, 1);
    } else {
      FromRevision(trace, events, 1);
    }
  }

  // Metadata is put up for review only when it is complete.
  lemma ReviewIsOfComplete(events: seq<Event>)
    requires Runs(NEW_THREAD, events) && After(NEW_THREAD, events).next == At(MetadataReview)
    ensures After(NEW_THREAD, events).complete
  {
    var n := |events| - 1;
    RunKeeps(NEW_THREAD, events[..n]);
    IntoMetadataReview(After(NEW_THREAD, events[..n]), events[n]);
  }

  lemma IntoMetadataReview(g: Graph, e: Event)
    requires Routed(g) && Enabled(g, e) && Do(g, e).next == At(MetadataReview)
    ensures Do(g, e).complete
  {
    match e
    case Resume(input) => AfterResume(g, input);
    case Run(intent, complete) =>
      if Plain(g.next.node) {
        PlainNode(g, intent, complete);
      } else {
        OtherNodes(g, intent, complete);
      }
    case _ =>
  }

  lemma OtherNodes(g: Graph, intent: Intent, complete: bool)
    requires Routed(g) && g.next.At? && !IsInterrupt(g.next.node) && !Plain(g.next.node)
    ensures RunNode(g, intent, complete).next != At(MetadataReview)
  {
    match g.next.node
    case IntentRouter => Routes(g, intent, complete);
    case RevisionRouter => RouterDescends(g);
    case ProfileReflection =>
  }
}
