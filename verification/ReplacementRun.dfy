/** The staged replacement run that can crash anywhere and resume from its checkpoint.
    Providers are deterministic; whether a stage is cancelled, raises or fails is up to the
    attempt. */
module ReplacementRun {

  type Reference = string

  datatype Subject = Model | Product

  datatype Stage =
    | ClosedImage(subject: Subject, index: nat, value: string)
    | Workflow(subject: Subject, index: nat, app: string)

  /** What the checkpoint knows a stage by. */
  datatype StageId =
    | ClosedId(subject: Subject, index: nat)
    | WorkflowId(subject: Subject, index: nat, app: string)

  function IdOf(s: Stage): StageId {
    match s
    case ClosedImage(subject, index, _) => ClosedId(subject, index)
    case Workflow(subject, index, app) => WorkflowId(subject, index, app)
  }

  // ---- the plan

  const CLOSED_IMAGE := "closed_image_model"

  predicate IsClosedImage(stage: string) {
    stage == CLOSED_IMAGE || (|CLOSED_IMAGE| < |stage| && CLOSED_IMAGE + ":" <= stage)
  }

  /** A closed-image stage is the bare name, or the name with a value behind a colon. */
  lemma ClosedImageIff(stage: string)
    ensures IsClosedImage(stage) <==> stage == CLOSED_IMAGE || exists v :: stage == CLOSED_IMAGE + ":" + v
  {
    var prefix := CLOSED_IMAGE + ":";
    if IsClosedImage(stage) && stage != CLOSED_IMAGE {
      assert stage == prefix + stage[|prefix|..];
    }
    forall v | stage == prefix + v
      ensures IsClosedImage(stage)
    {
      assert |stage| == |prefix| + |v|;
    }
  }

  /** The closed-image stages of a chain, or the others, numbered from the given index. */
  function Part(chain: seq<string>, subject: Subject, closed: bool, index: nat): (stages: seq<Stage>)
    ensures forall i | 0 <= i < |stages| ::
              stages[i].subject == subject && stages[i].index == index + i && stages[i].ClosedImage? == closed
  {
    if chain == [] then []
    else if IsClosedImage(chain[0]) == closed then
      [if closed then ClosedImage(subject, index, chain[0]) else Workflow(subject, index, chain[0])]
      + Part(chain[1..], subject, closed, index + 1)
    else Part(chain[1..], subject, closed, index)
  }

  /** All closed-image stages before all workflows, the model before the product. */
  function Plan(model: seq<string>, product: seq<string>): seq<Stage> {
    Part(model, Model, true, 1) + Part(product, Product, true, 1)
    + Part(model, Model, false, 1) + Part(product, Product, false, 1)
  }

  ghost predicate DistinctIds(stages: seq<Stage>) {
    forall i, j | 0 <= i < j < |stages| :: IdOf(stages[i]) != IdOf(stages[j])
  }

  /** How many stages of a chain are closed-image stages, or how many are not. */
  function HowMany(chain: seq<string>, closed: bool): nat {
    if chain == [] then 0
    else HowMany(chain[..|chain| - 1], closed) + (if IsClosedImage(chain[|chain| - 1]) == closed then 1 else 0)
  }

  function ValueOf(s: Stage): string {
    match s
    case ClosedImage(_, _, value) => value
    case Workflow(_, _, app) => app
  }

  lemma {:induction false} HowManyTail(chain: seq<string>, closed: bool)
    requires chain != []
    ensures HowMany(chain, closed) == (if IsClosedImage(chain[0]) == closed then 1 else 0) + HowMany(chain[1..], closed)
  {
    var n := |chain| - 1;
    if n > 0 {
      HowManyTail(chain[..n], closed);
      assert chain[..n][1..] == chain[1..][..n - 1];
    } else {
      assert chain[..0] == [] && chain[1..] == [];
    }
  }

  /** A part has every stage of the chain that belongs to it, in order, and nothing else. */
  lemma {:induction false} PartComplete(chain: seq<string>, subject: Subject, closed: bool, index: nat, k: nat)
    requires k < |chain| && IsClosedImage(chain[k]) == closed
    ensures var part, n := Part(chain, subject, closed, index), HowMany(chain[..k], closed);
            |part| == HowMany(chain, closed) && n < |part| && ValueOf(part[n]) == chain[k]
  {
    PartSize(chain, subject, closed, index);
    if k > 0 {
      HowManyTail(chain[..k], closed);
      assert chain[..k][0] == chain[0] && chain[..k][1..] == chain[1..][..k - 1] && chain[k] == chain[1..][k - 1];
      var first := IsClosedImage(chain[0]) == closed;
      PartComplete(chain[1..], subject, closed, if first then index + 1 else index, k - 1);
      HowManyTail(chain, closed);
    } else {
      assert chain[..0] == [];
    }
  }

  lemma {:induction false} PartSize(chain: seq<string>, subject: Subject, closed: bool, index: nat)
    ensures |Part(chain, subject, closed, index)| == HowMany(chain, closed)
  {
    if chain != [] {
      HowManyTail(chain, closed);
      PartSize(chain[1..], subject, closed, if IsClosedImage(chain[0]) == closed then index + 1 else index);
    }
  }

  /** One stage comes before another: closed images before workflows, then the model before
      the product, then by index. */
  predicate Precedes(a: Stage, b: Stage) {
    if a.ClosedImage? != b.ClosedImage? then a.ClosedImage?
    else if a.subject != b.subject then a.subject.Model?
    else a.index < b.index
  }

  /** A plan is ordered. */
  lemma PlanOrdered(model: seq<string>, product: seq<string>, i: nat, j: nat)
    requires i < j < |Plan(model, product)|
    ensures Precedes(Plan(model, product)[i], Plan(model, product)[j])
  {
    PlanPlaces(model, product, i);
    PlanPlaces(model, product, j);
  }

  lemma PlanPlaces(model: seq<string>, product: seq<string>, i: nat)
    requires i < |Plan(model, product)|
    ensures var a, b := Part(model, Model, true, 1), Part(product, Product, true, 1);
            var c, d := Part(model, Model, false, 1), Part(product, Product, false, 1);
            Plan(model, product)[i] ==
            if i < |a| then a[i] else if i < |a| + |b| then b[i - |a|]
            else if i < |a| + |b| + |c| then c[i - |a| - |b|] else d[i - |a| - |b| - |c|]
  {
  }

  /** No two stages of a plan share a checkpoint entry. */
  lemma PlanIdsDistinct(model: seq<string>, product: seq<string>)
    ensures DistinctIds(Plan(model, product))
  {
    forall i, j | 0 <= i < j < |Plan(model, product)|
      ensures IdOf(Plan(model, product)[i]) != IdOf(Plan(model, product)[j])
    {
      PlanOrdered(model, product, i, j);
    }
  }

  // ---- one attempt

  datatype Images = Images(model: Reference, product: Reference)

  function ImageOf(images: Images, s: Subject): Reference {
    if s.Model? then images.model else images.product
  }

  function SetImage(images: Images, s: Subject, r: Reference): Images {
    if s.Model? then images.(model := r) else images.(product := r)
  }

  datatype Media = Media(images: Images, video: Reference)

  datatype Providers = Providers(image: (Stage, Reference) -> Reference, video: (Stage, Reference, Reference) -> Reference)

  /** Cancelled: the run is stopped before the stage, even before one that is resumed. */
  datatype Fault = NoFault | Cancelled | Raises | Fails

  datatype Setting = Setting(
    kept: bool,                        // restarted in the row it resumes from, not a new task
    providers: Providers,
    resume: map<StageId, Reference>,   // checkpointed outputs that are still usable
    faults: Stage -> Fault,            // a closed-image stage that does not succeed raises
    token: string)                     // resume_runninghub_task_id

  datatype Entry = Entry(id: StageId, output: Reference)

  /** A provider call with the image, the video of a workflow, and the resume token it was
      given. */
  datatype Call = Call(stage: Stage, image: Reference, video: Reference, token: string)

  datatype Progress = Progress(media: Media, completed: seq<Entry>, calls: seq<Call>, firstPending: bool)

  datatype Outcome = Running | Done | Failed | Crashed

  /** What the providers make of a stage. */
  function Produced(p: Providers, s: Stage, m: Media): Reference {
    match s
    case ClosedImage(subject, _, _) => p.image(s, ImageOf(m.images, subject))
    case Workflow(subject, _, _) => p.video(s, m.video, ImageOf(m.images, subject))
  }

  /** The media after a stage has put out r. */
  function After(s: Stage, m: Media, r: Reference): Media {
    match s
    case ClosedImage(subject, _, _) => m.(images := SetImage(m.images, subject, r))
    case Workflow(_, _, _) => m.(video := r)
  }

  function TokenFor(e: Setting, s: Stage, p: Progress): string {
    if s.Workflow? && p.firstPending then e.token else ""
  }

  function Completed(s: Stage, p: Progress, r: Reference): Progress {
    p.(media := After(s, p.media, r), completed := p.completed + [Entry(IdOf(s), r)])
  }

  function Called(e: Setting, s: Stage, p: Progress): Progress {
    var video := if s.Workflow? then p.media.video else "";
    p.(calls := p.calls + [Call(s, ImageOf(p.media.images, s.subject), video, TokenFor(e, s, p))],
       firstPending := p.firstPending && s.ClosedImage?)
  }

  function RunStage(e: Setting, s: Stage, p: Progress): (Outcome, Progress) {
    if e.faults(s).Cancelled? then (Crashed, p)
    else if IdOf(s) in e.resume then (Running, Completed(s, p, e.resume[IdOf(s)]))
    else
      var p' := Called(e, s, p);
      match e.faults(s)
      case NoFault => (Running, Completed(s, p', Produced(e.providers, s, p.media)))
      case Fails => (if s.Workflow? then Failed else Crashed, p')
      case _ => (Crashed, p')
  }

  function RunStages(e: Setting, stages: seq<Stage>, p: Progress): (Outcome, Progress)
    decreases |stages|
  {
    if stages == [] then (Done, p)
    else
      var (o, p') := RunStage(e, stages[0], p);
      if o.Running? then RunStages(e, stages[1..], p') else (o, p')
  }

  function Start(m: Media): Progress {
    Progress(m, [], [], true)
  }

  /** The two loops of the run. */
  method RunAttempt(e: Setting, closed: seq<Stage>, workflows: seq<Stage>, m: Media)
    returns (outcome: Outcome, p: Progress)
    requires forall i | 0 <= i < |closed| :: closed[i].ClosedImage?
    requires forall i | 0 <= i < |workflows| :: workflows[i].Workflow?
    ensures (outcome, p) == RunStages(e, closed + workflows, Start(m))
  {
    var images := m.images;
    var video := m.video;
    var completed: seq<Entry> := [];
    var calls: seq<Call> := [];
    ghost var all := closed + workflows;
    for i := 0 to |closed|
      invariant RunStages(e, all[i..], Progress(Media(images, video), completed, calls, true)) == RunStages(e, all, Start(m))
    {
      var s := closed[i];
      assert all[i..][0] == s && all[i..][1..] == all[i + 1..];
      if e.faults(s).Cancelled? {
        return Crashed, Progress(Media(images, video), completed, calls, true);
      }
      var output;
      if IdOf(s) in e.resume {
        output := e.resume[IdOf(s)];
      } else {
        calls := calls + [Call(s, ImageOf(images, s.subject), "", "")];
        if e.faults(s) != NoFault {
          return Crashed, Progress(Media(images, video), completed, calls, true);
        }
        output := e.providers.image(s, ImageOf(images, s.subject));
      }
      images := SetImage(images, s.subject, output);
      completed := completed + [Entry(IdOf(s), output)];
    }
    var firstPending := true;
    for i := 0 to |workflows|
      invariant RunStages(e, all[|closed| + i..], Progress(Media(images, video), completed, calls, firstPending))
             == RunStages(e, all, Start(m))
    {
      var s := workflows[i];
      assert all[|closed| + i..][0] == s && all[|closed| + i..][1..] == all[|closed| + i + 1..];
      if e.faults(s).Cancelled? {
        return Crashed, Progress(Media(images, video), completed, calls, firstPending);
      }
      var output;
      if IdOf(s) in e.resume {
        output := e.resume[IdOf(s)];
      } else {
        calls := calls + [Call(s, ImageOf(images, s.subject), video, if firstPending then e.token else "")];
        firstPending := false;
        if e.faults(s) != NoFault {
          outcome := if e.faults(s).Fails? then Failed else Crashed;
          return outcome, Progress(Media(images, video), completed, calls, firstPending);
        }
        output := e.providers.video(s, video, ImageOf(images, s.subject));
      }
      video := output;
      completed := completed + [Entry(IdOf(s), output)];
    }
    outcome, p := Done, Progress(Media(images, video), completed, calls, firstPending);
    assert all[|closed| + |workflows|..] == [];
  }

  // ---- the uninterrupted run

  /** The media when every stage is executed once. */
  function Ideal(p: Providers, stages: seq<Stage>, m: Media): Media
    decreases |stages|
  {
    if stages == [] then m else Ideal(p, stages[1..], After(stages[0], m, Produced(p, stages[0], m)))
  }

  /** The checkpoint entries of the first n stages when every stage is executed once. */
  function IdealEntries(p: Providers, stages: seq<Stage>, m: Media, n: nat): (entries: seq<Entry>)
    requires n <= |stages|
    ensures |entries| == n && forall k | 0 <= k < n :: entries[k].id == IdOf(stages[k])
    decreases n
  {
    if n == 0 then []
    else
      var r := Produced(p, stages[0], m);
      [Entry(IdOf(stages[0]), r)] + IdealEntries(p, stages[1..], After(stages[0], m, r), n - 1)
  }

  /** Whatever survived of the checkpoint is what the uninterrupted run would put out. */
  ghost predicate Sound(resume: map<StageId, Reference>, p: Providers, stages: seq<Stage>, m: Media) {
    forall k | 0 <= k < |stages| && IdOf(stages[k]) in resume ::
      resume[IdOf(stages[k])] == IdealEntries(p, stages, m, |stages|)[k].output
  }

  /** The stages that did not survive, in order. */
  function Missing(resume: map<StageId, Reference>, stages: seq<Stage>): seq<Stage> {
    if stages == [] then []
    else (if IdOf(stages[0]) in resume then [] else [stages[0]]) + Missing(resume, stages[1..])
  }

  function StagesOf(calls: seq<Call>): seq<Stage>
  {
    seq(|calls|, i requires 0 <= i < |calls| => calls[i].stage)
  }

  lemma {:induction false} EntriesPrefix(p: Providers, stages: seq<Stage>, m: Media, k: nat, n: nat)
    requires k < n <= |stages|
    ensures IdealEntries(p, stages, m, n)[k] == IdealEntries(p, stages, m, |stages|)[k]
    decreases n
  {
    if k > 0 {
      EntriesPrefix(p, stages[1..], After(stages[0], m, Produced(p, stages[0], m)), k - 1, n - 1);
    }
  }

  lemma SoundTail(resume: map<StageId, Reference>, p: Providers, stages: seq<Stage>, m: Media)
    requires stages != [] && Sound(resume, p, stages, m)
    ensures IdOf(stages[0]) in resume ==> resume[IdOf(stages[0])] == Produced(p, stages[0], m)
    ensures Sound(resume, p, stages[1..], After(stages[0], m, Produced(p, stages[0], m)))
  {
    var tail := stages[1..];
    var entries := IdealEntries(p, stages, m, |stages|);
    forall k | 0 <= k < |tail| && IdOf(tail[k]) in resume
      ensures resume[IdOf(tail[k])] == IdealEntries(p, tail, After(stages[0], m, Produced(p, stages[0], m)), |tail|)[k].output
    {
      assert tail[k] == stages[k + 1] && entries[k + 1] == entries[1..][k];
    }
  }

  /** A prefix of the stages is completed with the outputs of the uninterrupted run, and
      the attempt is done exactly when that is all of them. */
  ghost predicate FollowsIdeal(e: Setting, stages: seq<Stage>, p: Progress, o: Outcome, q: Progress) {
    && |p.completed| <= |q.completed| <= |p.completed| + |stages|
    && q.completed == p.completed + IdealEntries(e.providers, stages, p.media, |q.completed| - |p.completed|)
    && (o.Done? <==> |q.completed| == |p.completed| + |stages|)
    && (o.Done? ==> q.media == Ideal(e.providers, stages, p.media))
    && !o.Running?
  }

  lemma Regroup(done: seq<Entry>, next: Entry, rest: seq<Entry>)
    ensures (done + [next]) + rest == done + ([next] + rest)
  {
  }

  lemma FollowsOne(e: Setting, stages: seq<Stage>, p: Progress, p': Progress, o: Outcome, q: Progress)
    requires stages != []
    requires var r := Produced(e.providers, stages[0], p.media);
             && p'.media == After(stages[0], p.media, r) && p'.completed == p.completed + [Entry(IdOf(stages[0]), r)]
    requires FollowsIdeal(e, stages[1..], p', o, q)
    ensures FollowsIdeal(e, stages, p, o, q)
  {
    var first := Entry(IdOf(stages[0]), Produced(e.providers, stages[0], p.media));
    var n := |q.completed| - |p.completed|;
    assert n >= 1;
    var rest := IdealEntries(e.providers, stages[1..], p'.media, n - 1);
    assert IdealEntries(e.providers, stages, p.media, n) == [first] + rest;
    Regroup(p.completed, first, rest);
  }

  lemma {:induction false} AttemptFollowsIdeal(e: Setting, stages: seq<Stage>, p: Progress)
    requires Sound(e.resume, e.providers, stages, p.media)
    ensures FollowsIdeal(e, stages, p, RunStages(e, stages, p).0, RunStages(e, stages, p).1)
    decreases |stages|
  {
    if stages != [] {
      SoundTail(e.resume, e.providers, stages, p.media);
      var (o, p') := RunStage(e, stages[0], p);
      if o.Running? {
        AttemptFollowsIdeal(e, stages[1..], p');
        FollowsOne(e, stages, p, p', RunStages(e, stages, p).0, RunStages(e, stages, p).1);
      }
    }
  }

  /** The calls an attempt makes are the missing stages, in order, up to where it stops;
      a failure is the failure of the last call. */
  ghost predicate CallsMissing(e: Setting, stages: seq<Stage>, p: Progress, o: Outcome, q: Progress) {
    && p.calls <= q.calls
    && StagesOf(q.calls[|p.calls|..]) <= Missing(e.resume, stages)
    && (o.Done? ==> StagesOf(q.calls[|p.calls|..]) == Missing(e.resume, stages))
    && (o == Failed ==> |q.calls| > |p.calls| && q.calls[|q.calls| - 1].stage.Workflow?)
  }

  lemma {:induction false} AttemptCallsMissing(e: Setting, stages: seq<Stage>, p: Progress)
    ensures CallsMissing(e, stages, p, RunStages(e, stages, p).0, RunStages(e, stages, p).1)
    decreases |stages|
  {
    if stages != [] {
      var (o, p') := RunStage(e, stages[0], p);
      if o.Running? {
        var (o', q) := RunStages(e, stages[1..], p');
        AttemptCallsMissing(e, stages[1..], p');
        CallsMissingOne(e, stages, p, p', o', q);
      } else if e.faults(stages[0]).Cancelled? {
        assert StagesOf(p.calls[|p.calls|..]) == [];
      } else {
        assert StagesOf(p'.calls[|p.calls|..]) == [stages[0]];
      }
    }
  }

  lemma CallsMissingOne(e: Setting, stages: seq<Stage>, p: Progress, p': Progress, o: Outcome, q: Progress)
    requires stages != [] && CallsMissing(e, stages[1..], p', o, q)
    requires IdOf(stages[0]) in e.resume ==> p'.calls == p.calls
    requires IdOf(stages[0]) !in e.resume ==> |p'.calls| == |p.calls| + 1 && p.calls <= p'.calls && p'.calls[|p.calls|].stage == stages[0]
    ensures CallsMissing(e, stages, p, o, q)
  {
    if IdOf(stages[0]) in e.resume {
      assert Missing(e.resume, stages) == Missing(e.resume, stages[1..]);
    } else {
      assert q.calls[|p.calls|] == p'.calls[|p.calls|];
      assert StagesOf(q.calls[|p.calls|..]) == [stages[0]] + StagesOf(q.calls[|p'.calls|..]);
    }
  }

  ghost predicate NoWorkflow(calls: seq<Call>) {
    forall j | 0 <= j < |calls| :: calls[j].stage.ClosedImage?
  }

  /** The token goes to the first workflow that is called and to no other call. */
  ghost predicate TokenOnce(calls: seq<Call>, token: string) {
    forall i | 0 <= i < |calls| ::
      calls[i].token == (if calls[i].stage.Workflow? && NoWorkflow(calls[..i]) then token else "")
  }

  lemma {:induction false} AttemptPassesTokenOnce(e: Setting, stages: seq<Stage>, p: Progress)
    requires TokenOnce(p.calls, e.token)
    requires p.firstPending <==> NoWorkflow(p.calls)
    ensures TokenOnce(RunStages(e, stages, p).1.calls, e.token)
    decreases |stages|
  {
    if stages != [] {
      var (o, p') := RunStage(e, stages[0], p);
      if IdOf(stages[0]) !in e.resume && !e.faults(stages[0]).Cancelled? {
        OneMoreCall(e, stages[0], p);
      }
      if o.Running? {
        AttemptPassesTokenOnce(e, stages[1..], p');
      }
    }
  }

  lemma OneMoreCall(e: Setting, s: Stage, p: Progress)
    requires TokenOnce(p.calls, e.token)
    requires p.firstPending <==> NoWorkflow(p.calls)
    ensures TokenOnce(Called(e, s, p).calls, e.token)
    ensures Called(e, s, p).firstPending <==> NoWorkflow(Called(e, s, p).calls)
  {
    var n, calls := |p.calls|, Called(e, s, p).calls;
    assert calls[n].stage == s && calls[..n] == p.calls;
    forall i | 0 <= i < n
      ensures calls[i] == p.calls[i] && calls[..i] == p.calls[..i]
    {
    }
  }

  /** The attempt cannot get past a stage that is cancelled, or that has to be called and
      raises or fails. */
  predicate Stops(e: Setting, s: Stage) {
    e.faults(s).Cancelled? || (IdOf(s) !in e.resume && !e.faults(s).NoFault?)
  }

  ghost predicate Faultless(e: Setting, stages: seq<Stage>) {
    forall k | 0 <= k < |stages| :: !Stops(e, stages[k])
  }

  lemma {:induction false} NoFaultsDone(e: Setting, stages: seq<Stage>, p: Progress)
    requires Faultless(e, stages)
    ensures RunStages(e, stages, p).0.Done?
    decreases |stages|
  {
    if stages != [] {
      assert Faultless(e, stages[1..]) by {
        assert forall k | 0 <= k < |stages[1..]| :: stages[1..][k] == stages[k + 1];
      }
      assert !Stops(e, stages[0]);
      NoFaultsDone(e, stages[1..], RunStage(e, stages[0], p).1);
    }
  }

  lemma FromStart(e: Setting, stages: seq<Stage>, m: Media, o: Outcome, q: Progress)
    requires FollowsIdeal(e, stages, Start(m), o, q) && CallsMissing(e, stages, Start(m), o, q)
    ensures |q.completed| <= |stages| && q.completed == IdealEntries(e.providers, stages, m, |q.completed|)
    ensures o.Done? ==> q.media == Ideal(e.providers, stages, m) && StagesOf(q.calls) == Missing(e.resume, stages)
    ensures o.Done? <==> |q.completed| == |stages|
  {
    var entries := IdealEntries(e.providers, stages, m, |q.completed|);
    assert q.calls[0..] == q.calls;
    assert [] + entries == entries;
  }

  /** Crash and resume: from any sound remains of a checkpoint, an attempt that finishes
      ends with the media of the uninterrupted run, having called exactly the stages that
      did not survive; it finishes unless it is cancelled or one of those raises or fails; and at any end the
      checkpoint lists a prefix of the stages with their uninterrupted outputs, so never a
      stage that failed. */
  lemma ResumedRunIsUninterrupted(e: Setting, stages: seq<Stage>, m: Media)
    requires Sound(e.resume, e.providers, stages, m)
    ensures var (o, q) := RunStages(e, stages, Start(m));
            && |q.completed| <= |stages| && q.completed == IdealEntries(e.providers, stages, m, |q.completed|)
            && (o.Done? ==> q.media == Ideal(e.providers, stages, m) && StagesOf(q.calls) == Missing(e.resume, stages))
            && (o.Done? <==> |q.completed| == |stages|)
            && TokenOnce(q.calls, e.token)
            && (o.Done? <==> Faultless(e, stages))
  {
    var (o, q) := RunStages(e, stages, Start(m));
    AttemptFollowsIdeal(e, stages, Start(m));
    AttemptCallsMissing(e, stages, Start(m));
    FromStart(e, stages, m, o, q);
    assert NoWorkflow([]) && TokenOnce([], e.token);
    AttemptPassesTokenOnce(e, stages, Start(m));
    DoneIffFaultless(e, stages, m);
  }

  lemma DoneIffFaultless(e: Setting, stages: seq<Stage>, m: Media)
    requires Sound(e.resume, e.providers, stages, m)
    ensures RunStages(e, stages, Start(m)).0.Done? <==> Faultless(e, stages)
  {
    if Faultless(e, stages) {
      NoFaultsDone(e, stages, Start(m));
    } else {
      var k :| 0 <= k < |stages| && Stops(e, stages[k]);
      StopsAt(e, stages, Start(m), k);
      AttemptFollowsIdeal(e, stages, Start(m));
    }
  }

  // ---- what the providers are given

  /** The image of a subject after some stages: what its own closed-image stages make of it,
      one after the other. */
  ghost function ImageAlong(p: Providers, stages: seq<Stage>, subject: Subject, image: Reference): Reference {
    if stages == [] then image
    else
      var last, before := stages[|stages| - 1], ImageAlong(p, stages[..|stages| - 1], subject, image);
      if last.ClosedImage? && last.subject == subject then p.image(last, before) else before
  }

  ghost function ImageFor(p: Providers, stages: seq<Stage>, subject: Subject, m: Media): Reference {
    match subject
    case Model => ImageAlong(p, stages, Model, m.images.model)
    case Product => ImageAlong(p, stages, Product, m.images.product)
  }

  /** The video after some stages: what the workflows make of it, one after the other, each
      with the image of its subject. */
  ghost function VideoAlong(p: Providers, stages: seq<Stage>, m: Media): Reference {
    if stages == [] then m.video
    else
      var n := |stages| - 1;
      var last, before := stages[n], VideoAlong(p, stages[..n], m);
      if last.Workflow? then p.video(last, before, ImageFor(p, stages[..n], last.subject, m)) else before
  }

  lemma {:induction false} IdealLast(p: Providers, stages: seq<Stage>, m: Media)
    requires stages != []
    ensures var s, before := stages[|stages| - 1], Ideal(p, stages[..|stages| - 1], m);
            Ideal(p, stages, m) == After(s, before, Produced(p, s, before))
    decreases |stages|
  {
    if |stages| > 1 {
      var n := |stages| - 1;
      IdealLast(p, stages[1..], After(stages[0], m, Produced(p, stages[0], m)));
      assert stages[1..][..n - 1] == stages[..n][1..];
    } else {
      assert stages[..0] == [] && stages[1..] == [];
    }
  }

  /** The uninterrupted run, image by image and video by video. */
  lemma {:induction false} IdealAlong(p: Providers, stages: seq<Stage>, m: Media)
    ensures Ideal(p, stages, m).images.model == ImageAlong(p, stages, Model, m.images.model)
    ensures Ideal(p, stages, m).images.product == ImageAlong(p, stages, Product, m.images.product)
    ensures Ideal(p, stages, m).video == VideoAlong(p, stages, m)
  {
    if stages != [] {
      IdealLast(p, stages, m);
      IdealAlong(p, stages[..|stages| - 1], m);
    }
  }

  /** A call of stage n is given the image of its subject after the stages before it, and, if
      it is a workflow, the video after them. */
  ghost predicate GivenAt(p: Providers, stages: seq<Stage>, m: Media, c: Call, n: nat) {
    && n < |stages| && c.stage == stages[n]
    && c.image == ImageFor(p, stages[..n], stages[n].subject, m)
    && (stages[n].Workflow? ==> c.video == VideoAlong(p, stages[..n], m))
  }

  ghost predicate Given(p: Providers, stages: seq<Stage>, m: Media, c: Call) {
    exists n: nat :: GivenAt(p, stages, m, c, n)
  }

  ghost predicate AllGiven(p: Providers, stages: seq<Stage>, m: Media, calls: seq<Call>) {
    forall k | 0 <= k < |calls| :: Given(p, stages, m, calls[k])
  }

  lemma CallGiven(e: Setting, stages: seq<Stage>, m: Media, n: nat, p: Progress)
    requires n < |stages| && p.media == Ideal(e.providers, stages[..n], m)
    ensures var calls := Called(e, stages[n], p).calls; GivenAt(e.providers, stages, m, calls[|p.calls|], n)
  {
    IdealAlong(e.providers, stages[..n], m);
  }

  lemma StageIdeal(e: Setting, stages: seq<Stage>, m: Media, n: nat, p: Progress)
    requires n < |stages| && p.media == Ideal(e.providers, stages[..n], m)
    requires IdOf(stages[n]) in e.resume ==> e.resume[IdOf(stages[n])] == Produced(e.providers, stages[n], p.media)
    ensures var (o, p') := RunStage(e, stages[n], p);
            o.Running? ==> p'.media == Ideal(e.providers, stages[..n + 1], m)
  {
    IdealLast(e.providers, stages[..n + 1], m);
    assert stages[..n + 1][..n] == stages[..n];
  }

  lemma OneMoreGiven(p: Providers, stages: seq<Stage>, m: Media, n: nat, before: seq<Call>, after: seq<Call>)
    requires n < |stages| && AllGiven(p, stages, m, before) && before <= after
    requires forall k | |before| <= k < |after| :: GivenAt(p, stages, m, after[k], n)
    ensures AllGiven(p, stages, m, after)
  {
    forall k | 0 <= k < |after|
      ensures Given(p, stages, m, after[k])
    {
      if k < |before| {
        assert after[k] == before[k];
      } else {
        assert GivenAt(p, stages, m, after[k], n);
      }
    }
  }

  lemma {:induction false} GivenFrom(e: Setting, stages: seq<Stage>, m: Media, n: nat, p: Progress)
    requires n <= |stages| && p.media == Ideal(e.providers, stages[..n], m)
    requires Sound(e.resume, e.providers, stages[n..], p.media)
    requires AllGiven(e.providers, stages, m, p.calls)
    ensures AllGiven(e.providers, stages, m, RunStages(e, stages[n..], p).1.calls)
    decreases |stages| - n
  {
    if n < |stages| {
      var rest := stages[n..];
      SoundTail(e.resume, e.providers, rest, p.media);
      assert rest[0] == stages[n] && rest[1..] == stages[n + 1..];
      StageGiven(e, stages, m, n, p);
      var (o, p') := RunStage(e, stages[n], p);
      if o.Running? {
        IdealLast(e.providers, stages[..n + 1], m);
        assert stages[..n + 1][..n] == stages[..n];
        GivenFrom(e, stages, m, n + 1, p');
      }
    }
  }

  lemma StageGiven(e: Setting, stages: seq<Stage>, m: Media, n: nat, p: Progress)
    requires n < |stages| && p.media == Ideal(e.providers, stages[..n], m)
    requires IdOf(stages[n]) in e.resume ==> e.resume[IdOf(stages[n])] == Produced(e.providers, stages[n], p.media)
    requires AllGiven(e.providers, stages, m, p.calls)
    ensures var (o, p') := RunStage(e, stages[n], p);
            && AllGiven(e.providers, stages, m, p'.calls)
            && (o.Running? ==> p'.media == Ideal(e.providers, stages[..n + 1], m))
  {
    StageIdeal(e, stages, m, n, p);
    CallGiven(e, stages, m, n, p);
    OneMoreGiven(e.providers, stages, m, n, p.calls, Called(e, stages[n], p).calls);
  }

  /** Every provider call of an attempt, however it was resumed and wherever it ends, is given
      what the stages before it make of the initial media. */
  lemma CallsAreGiven(e: Setting, stages: seq<Stage>, m: Media)
    requires Sound(e.resume, e.providers, stages, m)
    ensures AllGiven(e.providers, stages, m, RunStages(e, stages, Start(m)).1.calls)
  {
    assert stages[..0] == [] && stages[0..] == stages;
    GivenFrom(e, stages, m, 0, Start(m));
  }

  /** Stages of another kind or subject do not matter for an image. */
  lemma {:induction false} ImageSkips(p: Providers, stages: seq<Stage>, more: seq<Stage>, subject: Subject, image: Reference)
    requires forall i | 0 <= i < |more| :: more[i].Workflow? || more[i].subject != subject
    ensures ImageAlong(p, stages + more, subject, image) == ImageAlong(p, stages, subject, image)
  {
    if more == [] {
      assert stages + more == stages;
    } else {
      var n := |more| - 1;
      assert (stages + more)[..|stages| + n] == stages + more[..n];
      ImageSkips(p, stages, more[..n], subject, image);
    }
  }

  lemma {:induction false} ImageStarts(p: Providers, more: seq<Stage>, stages: seq<Stage>, subject: Subject, image: Reference)
    requires forall i | 0 <= i < |more| :: more[i].Workflow? || more[i].subject != subject
    ensures ImageAlong(p, more + stages, subject, image) == ImageAlong(p, stages, subject, image)
  {
    if stages == [] {
      assert more + stages == [] + more;
      ImageSkips(p, [], more, subject, image);
    } else {
      var n := |stages| - 1;
      assert (more + stages)[..|more| + n] == more + stages[..n];
      ImageStarts(p, more, stages[..n], subject, image);
    }
  }

  /** In a plan, every workflow gets the image that all closed-image stages of its own chain
      make of the initial one, whatever the other chain is. */
  lemma WorkflowImage(p: Providers, model: seq<string>, product: seq<string>, m: Media, n: nat)
    requires n < |Plan(model, product)| && Plan(model, product)[n].Workflow?
    ensures var stage := Plan(model, product)[n];
            ImageFor(p, Plan(model, product)[..n], stage.subject, m) ==
            if stage.subject.Model? then ImageAlong(p, Part(model, Model, true, 1), Model, m.images.model)
            else ImageAlong(p, Part(product, Product, true, 1), Product, m.images.product)
  {
    var a, b := Part(model, Model, true, 1), Part(product, Product, true, 1);
    PlanPlaces(model, product, n);
    var rest := Plan(model, product)[|a| + |b|..n];
    assert Plan(model, product)[..n] == a + b + rest;
    assert forall i | 0 <= i < |rest| :: rest[i].Workflow? by {
      forall i | 0 <= i < |rest|
        ensures rest[i].Workflow?
      {
        PlanPlaces(model, product, |a| + |b| + i);
      }
    }
    ImageSkips(p, a + b, rest, Model, m.images.model);
    ImageSkips(p, a + b, rest, Product, m.images.product);
    ImageSkips(p, a, b, Model, m.images.model);
    ImageStarts(p, a, b, Product, m.images.product);
  }

  // ---- any number of attempts

  /** The checkpoint in the row of an attempt after it. A crash before the first completed
      stage writes none, and the row of a new task starts empty; a failed workflow writes
      what is completed, even if that is nothing. */
  function Stored(kept: bool, before: seq<Entry>, o: Outcome, q: Progress): seq<Entry> {
    if q.completed == [] && o.Crashed? then (if kept then before else []) else q.completed
  }

  /** Some of the outputs in a checkpoint are still usable. */
  ghost predicate Survives(resume: map<StageId, Reference>, entries: seq<Entry>) {
    forall id | id in resume :: exists k :: 0 <= k < |entries| && entries[k] == Entry(id, resume[id])
  }

  ghost predicate IdealPrefix(entries: seq<Entry>, p: Providers, stages: seq<Stage>, m: Media) {
    |entries| <= |stages| && entries == IdealEntries(p, stages, m, |entries|)
  }

  lemma SurvivorsSound(resume: map<StageId, Reference>, entries: seq<Entry>, p: Providers, stages: seq<Stage>, m: Media)
    requires DistinctIds(stages) && IdealPrefix(entries, p, stages, m) && Survives(resume, entries)
    ensures Sound(resume, p, stages, m)
  {
    forall k | 0 <= k < |stages| && IdOf(stages[k]) in resume
      ensures resume[IdOf(stages[k])] == IdealEntries(p, stages, m, |stages|)[k].output
    {
      var id := IdOf(stages[k]);
      var j :| 0 <= j < |entries| && entries[j] == Entry(id, resume[id]);
      assert IdOf(stages[j]) == id;
      assert j == k;
      EntriesPrefix(p, stages, m, k, |entries|);
    }
  }

  /** A history of attempts on one plan: each starts from remains of the stored checkpoint. */
  ghost predicate IsHistory(attempts: seq<Setting>, stores: seq<seq<Entry>>, p: Providers, stages: seq<Stage>, m: Media) {
    && |stores| == |attempts| + 1 && stores[0] == []
    && forall i | 0 <= i < |attempts| ::
         && attempts[i].providers == p
         && Survives(attempts[i].resume, stores[i])
         && var (o, q) := RunStages(attempts[i], stages, Start(m));
            stores[i + 1] == Stored(attempts[i].kept, stores[i], o, q)
  }

  lemma {:induction false} HistorySound(attempts: seq<Setting>, stores: seq<seq<Entry>>, p: Providers, stages: seq<Stage>, m: Media, i: nat)
    requires DistinctIds(stages) && IsHistory(attempts, stores, p, stages, m) && i <= |attempts|
    ensures IdealPrefix(stores[i], p, stages, m)
    ensures i < |attempts| ==> Sound(attempts[i].resume, p, stages, m)
  {
    if i > 0 {
      HistorySound(attempts, stores, p, stages, m, i - 1);
      ResumedRunIsUninterrupted(attempts[i - 1], stages, m);
      var (o, q) := RunStages(attempts[i - 1], stages, Start(m));
      assert stores[i - 1 + 1] == Stored(attempts[i - 1].kept, stores[i - 1], o, q);
    }
    if i < |attempts| {
      SurvivorsSound(attempts[i].resume, stores[i], p, stages, m);
    }
  }

  /** However often a run of a plan was interrupted, and whatever was lost in between: an
      attempt that finishes ends as if there had been no interruption. */
  lemma EveryFinishIsUninterrupted(model: seq<string>, product: seq<string>, attempts: seq<Setting>, stores: seq<seq<Entry>>,
                                   p: Providers, m: Media, i: nat)
    requires IsHistory(attempts, stores, p, Plan(model, product), m) && i < |attempts|
    requires RunStages(attempts[i], Plan(model, product), Start(m)).0.Done?
    ensures RunStages(attempts[i], Plan(model, product), Start(m)).1.media == Ideal(p, Plan(model, product), m)
  {
    PlanIdsDistinct(model, product);
    HistorySound(attempts, stores, p, Plan(model, product), m, i);
    ResumedRunIsUninterrupted(attempts[i], Plan(model, product), m);
  }

  lemma {:induction false} StopsAt(e: Setting, stages: seq<Stage>, p: Progress, k: nat)
    requires k < |stages| && Stops(e, stages[k])
    ensures |RunStages(e, stages, p).1.completed| <= |p.completed| + k
    decreases |stages|
  {
    if k > 0 {
      var (o, p') := RunStage(e, stages[0], p);
      if o.Running? {
        StopsAt(e, stages[1..], p', k - 1);
      }
    }
  }

  /** The first stage the attempt cannot get past. */
  function FirstStop(e: Setting, stages: seq<Stage>): (k: nat)
    ensures k <= |stages| && (k < |stages| ==> Stops(e, stages[k]))
  {
    if stages == [] || Stops(e, stages[0]) then 0 else 1 + FirstStop(e, stages[1..])
  }

  /** The run ends there with a failure that it reports, and not with an exception. */
  predicate Reports(e: Setting, s: Stage) {
    s.Workflow? && e.faults(s).Fails?
  }

  lemma {:induction false} StopsThere(e: Setting, stages: seq<Stage>, p: Progress)
    ensures var (o, q), k := RunStages(e, stages, p), FirstStop(e, stages);
            && |q.completed| == |p.completed| + k
            && o == (if k == |stages| then Done else if Reports(e, stages[k]) then Failed else Crashed)
    decreases |stages|
  {
    if stages != [] && !Stops(e, stages[0]) {
      StopsThere(e, stages[1..], RunStage(e, stages[0], p).1);
    }
  }

  /** An exception ends the attempt before any stage is completed. */
  predicate CrashesFirst(e: Setting, stages: seq<Stage>) {
    stages != [] && Stops(e, stages[0]) && !Reports(e, stages[0])
  }

  /** The checkpoint after an attempt: what the row started with when it crashes before its
      first stage is completed, and otherwise just the stages before the first stop. */
  lemma StoreAfter(e: Setting, stages: seq<Stage>, m: Media, before: seq<Entry>)
    requires Sound(e.resume, e.providers, stages, m)
    ensures var (o, q) := RunStages(e, stages, Start(m));
            Stored(e.kept, before, o, q)
            == if e.kept && CrashesFirst(e, stages) then before else IdealEntries(e.providers, stages, m, FirstStop(e, stages))
  {
    ResumedRunIsUninterrupted(e, stages, m);
    StopsThere(e, stages, Start(m));
  }

  lemma EntryIn(p: Providers, stages: seq<Stage>, m: Media, j: nat, n: nat, k: nat)
    requires DistinctIds(stages) && j < n <= |stages| && k <= |stages|
    ensures IdealEntries(p, stages, m, n)[j] in IdealEntries(p, stages, m, k) <==> j < k
  {
    var x, entries := IdealEntries(p, stages, m, n)[j], IdealEntries(p, stages, m, k);
    if j < k {
      EntriesPrefix(p, stages, m, j, n);
      EntriesPrefix(p, stages, m, j, k);
      assert entries[j] == x;
    } else {
      forall i | 0 <= i < k
        ensures entries[i] != x
      {
        assert entries[i].id == IdOf(stages[i]) && x.id == IdOf(stages[j]);
      }
    }
  }

  /** Which entries of the checkpoint it resumes from are in the row of an attempt after it:
      all when it was restarted in that row and crashes before its first stage is completed,
      and otherwise those of the stages before the first stop. The others are forgotten, even
      when the attempt could have used them. */
  lemma StopForgetsLaterStages(e: Setting, stages: seq<Stage>, m: Media, before: seq<Entry>, j: nat)
    requires Sound(e.resume, e.providers, stages, m) && DistinctIds(stages)
    requires IdealPrefix(before, e.providers, stages, m) && j < |before|
    ensures var (o, q) := RunStages(e, stages, Start(m));
            before[j] in Stored(e.kept, before, o, q) <==> (e.kept && CrashesFirst(e, stages)) || j < FirstStop(e, stages)
  {
    StoreAfter(e, stages, m, before);
    EntryIn(e.providers, stages, m, j, |before|, FirstStop(e, stages));
  }

  /** Two workflows, of which the output of the second one survives and the first one has
      some fault. */
  lemma SecondSurvives(kept: bool, fault: Fault) returns (e: Setting, stages: seq<Stage>, m: Media, before: seq<Entry>)
    ensures |stages| == |before| == 2 && DistinctIds(stages) && IdealPrefix(before, e.providers, stages, m)
    ensures Survives(e.resume, before) && IdOf(stages[1]) in e.resume && before[1] == Entry(IdOf(stages[1]), e.resume[IdOf(stages[1])])
    ensures stages[0].Workflow? && IdOf(stages[0]) !in e.resume && e.faults(stages[0]) == fault && e.kept == kept
  {
    var first, second := Workflow(Model, 1, "a"), Workflow(Model, 2, "b");
    stages, m := [first, second], Media(Images("", ""), "");
    var p := Providers((s: Stage, r: Reference) => r, (s: Stage, v: Reference, r: Reference) => v);
    before := IdealEntries(p, stages, m, 2);
    var id := IdOf(second);
    assert IdOf(first).index != id.index;
    e := Setting(kept, p, map[id := before[1].output], (s: Stage) => if s == first then fault else NoFault, "");
    assert before[1] == Entry(id, e.resume[id]);
  }

  /** When the first one fails, the surviving output is no longer in the checkpoint; the same
      when it raises in a new task, where all is forgotten. */
  lemma SurvivorForgotten(kept: bool, fault: Fault) returns (e: Setting, stages: seq<Stage>, m: Media, before: seq<Entry>)
    requires fault.Fails? || (fault.Raises? && !kept)
    ensures DistinctIds(stages) && IdealPrefix(before, e.providers, stages, m) && Survives(e.resume, before)
    ensures |before| == 2 && before[1].id in e.resume && before[1].output == e.resume[before[1].id]
    ensures e.kept == kept && e.faults(stages[0]) == fault
    ensures var (o, q) := RunStages(e, stages, Start(m));
            (if fault.Fails? then o.Failed? else o.Crashed?) && Stored(e.kept, before, o, q) == []
  {
    e, stages, m, before := SecondSurvives(kept, fault);
    SurvivorsSound(e.resume, before, e.providers, stages, m);
    StopsThere(e, stages, Start(m));
    StoreAfter(e, stages, m, before);
  }

  // ---- cutting a long source video

  datatype Piece = Piece(start: real, duration: real)

  const END_SLACK := 0.05
  const DEFAULT_SEGMENT_SECONDS := 20

  /** The longest piece; zero stands for the default. */
  function SegmentLimit(seconds: int): (limit: real)
    ensures limit >= 1.0
    ensures seconds >= 1 ==> limit == seconds as real
  {
    if seconds == 0 then DEFAULT_SEGMENT_SECONDS as real else if seconds >= 1 then seconds as real else 1.0
  }

  /** Where piece number i starts. */
  ghost function StartOf(i: nat, limit: real): real {
    if i == 0 then 0.0 else StartOf(i - 1, limit) + limit
  }

  ghost predicate GoodPieces(pieces: seq<Piece>, limit: real) {
    && (forall i | 0 <= i < |pieces| :: pieces[i].start == StartOf(i, limit) && END_SLACK < pieces[i].duration <= limit)
    && forall i | 0 <= i < |pieces| - 1 :: pieces[i].duration == limit
  }

  /** Full pieces that follow each other from zero, and a shorter one at the end. What is
      left uncovered is never more than the slack, and nothing as short becomes a piece. */
  method SegmentSpecs(totalSeconds: real, maxSegmentSeconds: int) returns (pieces: seq<Piece>)
    ensures GoodPieces(pieces, SegmentLimit(maxSegmentSeconds))
    ensures pieces == [] <==> totalSeconds <= END_SLACK
    ensures pieces != [] ==>
              totalSeconds - END_SLACK <= pieces[|pieces| - 1].start + pieces[|pieces| - 1].duration <= totalSeconds
  {
    var total := if totalSeconds > 0.0 then totalSeconds else 0.0;
    var limit := SegmentLimit(maxSegmentSeconds);
    pieces := [];
    var start := 0.0;
    while start < total - END_SLACK
      invariant 0.0 <= start <= total && GoodPieces(pieces, limit)
      invariant pieces != [] ==> pieces[|pieces| - 1].start + pieces[|pieces| - 1].duration == start
      invariant start == StartOf(|pieces|, limit) || start == total
      invariant if pieces == [] then start == 0.0 else total > END_SLACK
      invariant start < total ==> pieces == [] || pieces[|pieces| - 1].duration == limit
      decreases (total - start) * 20.0
    {
      var duration := if limit <= total - start then limit else total - start;
      pieces := pieces + [Piece(start, duration)];
      start := start + duration;
    }
  }
}
