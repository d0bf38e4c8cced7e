/** The teaching workflow: a graph of nodes over a state that persists between turns. A turn is
    either a fresh message or the answer to a pending interrupt. What a language model answers and
    how an artifact job ends are parameters of the events; of a message's text only the keywords
    that the routing looks for are kept. */
module Workflow {
  import opened Options

  datatype Kind = Ppt | Docx | HtmlGame

  const ALL_KINDS := [Ppt, Docx, HtmlGame]

  // A type name in a request, which need not be a known one.
  datatype Name = Known(kind: Kind) | Unknown(name: string)

  datatype Artifact = Artifact(id: nat, kind: Kind)

  datatype Text = Text(asksRevision: bool, asksForAll: bool, mentioned: set<Kind>)

  const NO_TEXT := Text(false, false, {})

  datatype Intent = NormalChat | TeachingPlan | ArtifactRevision

  datatype JobStatus = Pending | Ready | Failed

  datatype JobResult = JobResult(kind: Kind, status: JobStatus, id: Option<nat>, error: Option<string>)

  // How the work of an artifact job ends: with an artifact, or with an exception.
  datatype Outcome = Made(id: nat) | Raised(row: Option<nat>, error: string)

  datatype Node =
    | ProfileLoad | IntentRouter
    | ChatMemory | PlanMemory | DesignMemory | RevisionMemory
    | Chat | MetadataStructer | FollowUp | Rag | Planner
    | RevisionRouter | FanIn
    | ProfileReflection | ExperienceReflection
    | UserInput | MetadataReview | PlanReview | Clarification

  datatype Mode = Create | Revise

  // What runs next: nothing, one node, or one artifact job for each of the kinds.
  datatype Next = End | At(node: Node) | FanOut(mode: Mode, kinds: seq<Kind>)

  datatype Report = Report(ofRevision: bool, results: seq<JobResult>)

  datatype Graph = Graph(
    next: Next,
    reflectionGoto: Option<Next>,
    started: bool,
    latest: Text,
    intent: Intent,
    complete: bool,
    catalog: seq<Artifact>,
    targets: Option<seq<Kind>>,
    sources: seq<Artifact>,
    slots: map<Kind, JobResult>,
    results: seq<JobResult>,
    reports: seq<Report>)

  // The value a pending interrupt is resumed with.
  datatype Input = Approve(selected: Option<seq<Name>>) | Message(text: Text) | WithAttachment(text: Text)

  datatype Event =
    | Fresh(message: Text, catalog: seq<Artifact>)
    | Resume(input: Input)
    | Run(intent: Intent, complete: bool)
    | Finish(jobs: seq<(Kind, Outcome)>)   // in the order in which the jobs complete

  predicate IsInterrupt(n: Node) {
    n.UserInput? || n.MetadataReview? || n.PlanReview? || n.Clarification?
  }

  // ----- Selecting types

  predicate NoRepeats<A(==)>(s: seq<A>) {
    forall i, j | 0 <= i < j < |s| :: s[i] != s[j]
  }

  function KindsOf(artifacts: seq<Artifact>): seq<Kind> {
    seq(|artifacts|, i requires 0 <= i < |artifacts| => artifacts[i].kind)
  }

  // First occurrences of known kinds, in order.
  function Deduplicated(names: seq<Name>): seq<Kind> {
    if names == [] then []
    else
      var n := |names| - 1;
      var r := Deduplicated(names[..n]);
      if names[n].Known? && names[n].kind !in r then r + [names[n].kind] else r
  }

  lemma {:induction false} DeduplicatedExactly(names: seq<Name>)
    ensures NoRepeats(Deduplicated(names))
    ensures forall k :: k in Deduplicated(names) <==> Known(k) in names
  {
    if names != [] {
      var n := |names| - 1;
      DeduplicatedExactly(names[..n]);
      assert names == names[..n] + [names[n]];
    }
  }

  function Normalized(selected: Option<seq<Name>>): seq<Kind> {
    match selected
    case None => ALL_KINDS
    case Some(names) => Deduplicated(names)
  }

  lemma NormalizedExactly(selected: Option<seq<Name>>)
    ensures NoRepeats(Normalized(selected))
    ensures forall k :: k in Normalized(selected) <==> selected.None? || Known(k) in selected.value
  {
    match selected
    case None =>
      forall k: Kind
        ensures k in ALL_KINDS
      {
        match k
        case Ppt =>
        case Docx =>
        case HtmlGame =>
      }
    case Some(names) =>
      DeduplicatedExactly(names);
  }

  function Named(kinds: seq<Kind>): seq<Name> {
    seq(|kinds|, i requires 0 <= i < |kinds| => Known(kinds[i]))
  }

  // The branches to launch, in the order of the node list.
  function Launched(kinds: seq<Kind>): seq<Kind> {
    (if Ppt in kinds then [Ppt] else []) + (if Docx in kinds then [Docx] else [])
    + (if HtmlGame in kinds then [HtmlGame] else [])
  }

  lemma LaunchedExactly(kinds: seq<Kind>)
    ensures NoRepeats(Launched(kinds))
    ensures forall k :: k in Launched(kinds) <==> k in kinds
    ensures kinds != [] ==> Launched(kinds) != []
  {
    assert forall k | k in kinds :: k == Ppt || k == Docx || k == HtmlGame;
    forall k
      ensures k in Launched(kinds) <==> k in kinds
    {
      match k
      case Ppt =>
      case Docx =>
      case HtmlGame =>
    }
    if kinds != [] {
      assert kinds[0] in Launched(kinds);
    }
  }

  function PendingResult(k: Kind): JobResult {
    JobResult(k, Pending, None, None)
  }

  function WithPending(slots: map<Kind, JobResult>, kinds: seq<Kind>): map<Kind, JobResult> {
    map k | k in slots.Keys + (set i | 0 <= i < |kinds| :: kinds[i]) ::
      if k in kinds then PendingResult(k) else slots[k]
  }

  // The kinds to revise, as the text has it; None when it does not tell.
  function InferredTargets(text: Text, catalog: seq<Artifact>): Option<seq<Kind>> {
    var available := Deduplicated(Named(KindsOf(catalog)));
    var explicit := Mentioned(text, ALL_KINDS, available);
    if text.asksForAll then Some(available)
    else if explicit != [] then Some(explicit)
    else if |available| == 1 then Some(available)
    else if available != [] then None
    else Some([])
  }

  function Mentioned(text: Text, kinds: seq<Kind>, available: seq<Kind>): seq<Kind> {
    if kinds == [] then []
    else (if kinds[0] in text.mentioned && kinds[0] in available then [kinds[0]] else [])
         + Mentioned(text, kinds[1..], available)
  }

  function Matching(catalog: seq<Artifact>, kinds: seq<Kind>): seq<Artifact> {
    if catalog == [] then []
    else (if catalog[0].kind in kinds then [catalog[0]] else []) + Matching(catalog[1..], kinds)
  }

  // ----- The nodes

  function IntentRouterNode(g: Graph, decision: Intent): Graph {
    var intent := if g.catalog != [] && g.latest.asksRevision then ArtifactRevision else decision;
    g.(intent := intent,
       next := At(match intent
                  case NormalChat => ChatMemory
                  case TeachingPlan => PlanMemory
                  case ArtifactRevision => RevisionMemory))
  }

  function ProfileReflectionNode(g: Graph): Graph {
    g.(next := g.reflectionGoto.UnwrapOr(At(ExperienceReflection)), reflectionGoto := None)
  }

  function MetadataReviewNode(g: Graph, input: Input): Graph {
    if input.Approve? then g.(next := At(DesignMemory))
    else g.(latest := input.text, next := At(MetadataStructer))
  }

  function PlanReviewNode(g: Graph, input: Input): Graph {
    if input.Approve? then
      var kinds := Normalized(input.selected);
      if kinds == [] then g.(next := End)
      else g.(targets := Some(kinds), sources := [], results := [], slots := WithPending(g.slots, kinds),
              next := FanOut(Create, Launched(kinds)))
    else g.(latest := input.text, next := At(DesignMemory))
  }

  function Revising(g: Graph, selected: seq<Artifact>): Graph {
    var kinds := KindsOf(selected);
    g.(sources := selected, results := [], slots := WithPending(g.slots, kinds), next := FanOut(Revise, Launched(kinds)))
  }

  function RevisionRouterNode(g: Graph): Graph {
    if g.catalog == [] then g.(next := End)
    else
      match InferredTargets(g.latest, g.catalog)
      case None => g.(next := At(Clarification))
      case Some(kinds) =>
        var selected := Matching(g.catalog, kinds);
        if selected == [] then g.(next := End) else Revising(g, selected)
  }

  function ClarificationNode(g: Graph, input: Input): Graph {
    if input.Approve? then Revising(g, g.catalog)
    else g.(latest := input.text, next := At(RevisionMemory))
  }

  function UserInputNode(g: Graph, input: Input): Graph {
    g.(latest := if input.Approve? then NO_TEXT else input.text, next := At(MetadataStructer))
  }

  function Finished(results: seq<JobResult>): seq<JobResult> {
    if results == [] then []
    else (if results[0].status.Pending? then [] else [results[0]]) + Finished(results[1..])
  }

  function Collected(slots: map<Kind, JobResult>, kinds: seq<Kind>): seq<JobResult> {
    if kinds == [] then []
    else (if kinds[0] in slots then [slots[kinds[0]]] else []) + Collected(slots, kinds[1..])
  }

  function TargetKinds(g: Graph): seq<Kind> {
    if g.sources != [] then KindsOf(g.sources)
    else Normalized(if g.targets.None? then None else Some(Named(g.targets.value)))
  }

  function FanInNode(g: Graph): Graph {
    var finished := Finished(Collected(g.slots, TargetKinds(g)));
    if finished == [] then g.(next := At(ProfileReflection))
    else g.(results := finished, reports := g.reports + [Report(g.sources != [], finished)], next := At(ProfileReflection))
  }

  // The node that is next, with the edges that leave it.
  function RunNode(g: Graph, intent: Intent, complete: bool): Graph
    requires g.next.At? && !IsInterrupt(g.next.node)
  {
    match g.next.node
    case ProfileLoad => g.(next := At(IntentRouter))
    case IntentRouter => IntentRouterNode(g, intent)
    case ChatMemory => g.(next := At(Chat))
    case PlanMemory => g.(next := At(MetadataStructer))
    case DesignMemory => g.(next := At(Rag))
    case RevisionMemory => g.(next := At(RevisionRouter))
    case Chat => g.(reflectionGoto := Some(End), next := At(ProfileReflection))
    case MetadataStructer => g.(complete := complete, next := At(if complete then MetadataReview else FollowUp))
    case FollowUp => g.(reflectionGoto := Some(At(UserInput)), next := At(ProfileReflection))
    case Rag => g.(next := At(Planner))
    case Planner => g.(reflectionGoto := Some(At(PlanReview)), next := At(ProfileReflection))
    case RevisionRouter => RevisionRouterNode(g)
    case FanIn => FanInNode(g)
    case ProfileReflection => ProfileReflectionNode(g)
    case ExperienceReflection => g.(next := End)
  }

  function ResumeNode(g: Graph, input: Input): Graph
    requires g.next.At? && IsInterrupt(g.next.node)
  {
    match g.next.node
    case UserInput => UserInputNode(g, input)
    case MetadataReview => MetadataReviewNode(g, input)
    case PlanReview => PlanReviewNode(g, input)
    case Clarification => ClarificationNode(g, input)
  }

  // A job reports in the slot of its own kind, whatever happens to it.
  function Reported(g: Graph, mode: Mode, k: Kind, o: Outcome): JobResult {
    if mode.Revise? && k !in KindsOf(g.sources) then
      JobResult(k, Failed, None, Some("No source artifact was resolved"))
    else
      match o
      case Made(id) => JobResult(k, Ready, Some(id), None)
      case Raised(row, error) => JobResult(k, Failed, row, Some(error))
  }

  // The updates of the jobs, each computed from the state the jobs started in.
  function Merged(slots: map<Kind, JobResult>, g: Graph, mode: Mode, jobs: seq<(Kind, Outcome)>): map<Kind, JobResult> {
    if jobs == [] then slots
    else
      var n := |jobs| - 1;
      Merged(slots, g, mode, jobs[..n])[jobs[n].0 := Reported(g, mode, jobs[n].0, jobs[n].1)]
  }

  function FreshTurn(g: Graph, message: Text, catalog: seq<Artifact>): Graph {
    g.(started := true, latest := message, catalog := catalog,
       slots := if g.started then g.slots else WithPending(g.slots, ALL_KINDS),
       next := At(ProfileLoad))
  }

  // ----- Runs

  predicate OncePerKind(jobs: seq<(Kind, Outcome)>) {
    forall i, j | 0 <= i < j < |jobs| :: jobs[i].0 != jobs[j].0
  }

  predicate Covers(jobs: seq<(Kind, Outcome)>, kinds: seq<Kind>) {
    && OncePerKind(jobs)
    && (forall i | 0 <= i < |jobs| :: jobs[i].0 in kinds)
    && (forall k | k in kinds :: exists i :: 0 <= i < |jobs| && jobs[i].0 == k)
  }

  predicate Enabled(g: Graph, e: Event) {
    match e
    // A pending interrupt takes the request as its answer instead. The catalogue has one entry
    // for each type (see Artifacts).
    case Fresh(_, catalog) => g.next.End? && NoRepeats(KindsOf(catalog))
    case Resume(_) => g.next.At? && IsInterrupt(g.next.node)
    case Run(_, _) => g.next.At? && !IsInterrupt(g.next.node)
    case Finish(jobs) => g.next.FanOut? && Covers(jobs, g.next.kinds)
  }

  function Do(g: Graph, e: Event): Graph
    requires Enabled(g, e)
  {
    match e
    case Fresh(message, catalog) => FreshTurn(g, message, catalog)
    case Resume(input) => ResumeNode(g, input)
    case Run(intent, complete) => RunNode(g, intent, complete)
    case Finish(jobs) => g.(slots := Merged(g.slots, g, g.next.mode, jobs), next := At(FanIn))
  }

  // The steps of a run one after the other, and the state they lead to.
  predicate Runs(g: Graph, events: seq<Event>)
    decreases |events|, 0
  {
    events == [] ||
    (var n := |events| - 1; Runs(g, events[..n]) && Enabled(After(g, events[..n]), events[n]))
  }

  function After(g: Graph, events: seq<Event>): Graph
    requires Runs(g, events)
    decreases |events|, 1
  {
    if events == [] then g else var n := |events| - 1; Do(After(g, events[..n]), events[n])
  }

  // A thread that has no state yet.
  const NEW_THREAD := Graph(End, None, false, NO_TEXT, NormalChat, false, [], None, [], map[], [], [])
}
