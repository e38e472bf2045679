/**
 Safety of the workflow engine over every run of it: any sequence of starts,
 resumes and restarts, with connectors, disk and deletions behaving in any way.
 */
module WorkflowLaws {
  import opened Sorting
  import opened Wrappers
  import opened Ordering
  import opened Reconcile
  import opened ReconcileLaws
  import opened Checkpoint
  import opened Workflow
  import opened Gathering

  // ---------------------------------------------------------------- what the log should say

  ghost predicate Mentioned(log: seq<Event>, runId: string) {
    exists e :: e in log && e.runId == runId
  }

  ghost predicate WasCreated(log: seq<Event>, runId: string, stored: Stored) {
    exists sources :: Created(runId, sources, stored) in log
  }

  /** The checkpoint file of the run was deleted. */
  ghost predicate Gone(log: seq<Event>, runId: string) {
    Removed(runId, true) in log
  }

  predicate IsSuccess(e: Event, runId: string) {
    e.Loaded? && e.succeeded && e.runId == runId
  }

  /** The checkpoint outlived a load or a refusal: deleting its file failed, or recording the load raised. */
  predicate IsLapse(e: Event, runId: string) {
    e.runId == runId && (e.Unrecorded? || (e.Removed? && !e.unlinked))
  }

  function Successes(log: seq<Event>, runId: string): nat {
    if log == [] then 0 else Successes(log[..|log| - 1], runId) + if IsSuccess(log[|log| - 1], runId) then 1 else 0
  }

  /** How often a successful load of the run was followed at once by a lapse. */
  function Lapses(log: seq<Event>, runId: string): nat {
    if log == [] then 0
    else Lapses(log[..|log| - 1], runId) + if EndsInLapse(log[..|log| - 1], log[|log| - 1], runId) then 1 else 0
  }

  predicate EndsInLapse(before: seq<Event>, e: Event, runId: string) {
    before != [] && IsSuccess(before[|before| - 1], runId) && IsLapse(e, runId)
  }

  /** The checkpoint was made from a resolved reconciliation of the sources that has records. */
  ghost predicate Genuine(t: Template, hash: Hash, runId: string, sources: Sources, stored: Stored) {
    && stored.reconciliation == Reconciled(sources, t.required, stored.period)
    && stored.reconciliation.resolved
    && stored.reconciliation.records != map[]
    && stored == Made(runId, t, hash, stored.period, RecordList(stored.reconciliation.records), stored.reconciliation)
  }

  /** A checkpoint that may still be resumed after these events. */
  ghost predicate Live(log: seq<Event>, runId: string, stored: Stored) {
    WasCreated(log, runId, stored) && !Gone(log, runId) && Successes(log, runId) <= Lapses(log, runId)
  }

  /** The load was approved for a live checkpoint, and loads exactly its approved records. */
  ghost predicate Justified(t: Template, hash: Hash, before: seq<Event>, e: Event, stored: Stored)
    requires e.Loaded?
  {
    && Live(before, e.runId, stored)
    && e.decision.action == "approve_load"
    && Refusal(e.runId, t, hash, stored, e.decision) == None
    && e.period == stored.period
    && e.records == Approved(stored.records, e.decision.approved)
  }

  ghost predicate Safe(t: Template, hash: Hash, before: seq<Event>, e: Event) {
    match e
    case Created(runId, sources, stored) => Genuine(t, hash, runId, sources, stored) && !Mentioned(before, runId)
    case Loaded(_, _, _, _, _) => exists stored :: Justified(t, hash, before, e, stored)
    case Removed(runId, _) => Mentioned(before, runId)
    case Unrecorded(runId) => Mentioned(before, runId)
  }

  ghost predicate SafeAt(t: Template, hash: Hash, log: seq<Event>, i: nat)
    requires i < |log|
  {
    Safe(t, hash, log[..i], log[i])
  }

  ghost predicate SafeLog(t: Template, hash: Hash, log: seq<Event>) {
    forall i {:trigger SafeAt(t, hash, log, i)} :: 0 <= i < |log| ==> SafeAt(t, hash, log, i)
  }

  // ---------------------------------------------------------------- one more event

  /** Safety at a place depends only on the log up to it. */
  lemma SafeAtSame(t: Template, hash: Hash, a: seq<Event>, b: seq<Event>, i: nat)
    requires i < |a| && i < |b| && a[..i] == b[..i] && a[i] == b[i] && SafeAt(t, hash, a, i)
    ensures SafeAt(t, hash, b, i)
  {
  }

  lemma SafeSnoc(t: Template, hash: Hash, log: seq<Event>, e: Event)
    requires SafeLog(t, hash, log) && Safe(t, hash, log, e)
    ensures SafeLog(t, hash, log + [e])
  {
    var all := log + [e];
    forall i | 0 <= i < |all| ensures SafeAt(t, hash, all, i) {
      assert all[..i] == log[..i];
      if i == |log| {
        assert log[..i] == log;
      } else {
        SafeAtSame(t, hash, log, all, i);
      }
    }
  }

  lemma CountSnoc(log: seq<Event>, e: Event, id: string)
    ensures Successes(log + [e], id) == Successes(log, id) + if IsSuccess(e, id) then 1 else 0
    ensures Lapses(log + [e], id) == Lapses(log, id) + if EndsInLapse(log, e, id) then 1 else 0
  {
    assert (log + [e])[..|log|] == log;
  }

  lemma {:induction false} NothingMentioned(log: seq<Event>, id: string)
    requires !Mentioned(log, id)
    ensures !Gone(log, id) && Successes(log, id) == 0 && Lapses(log, id) == 0
    decreases |log|
  {
    if log == [] {
    } else {
      var k := |log| - 1;
      assert log == log[..k] + [log[k]];
      assert log[k] in log;
      assert forall e :: e in log[..k] ==> e in log;
      NothingMentioned(log[..k], id);
    }
  }

  lemma CreatedSnoc(log: seq<Event>, e: Event, id: string, stored: Stored)
    requires WasCreated(log, id, stored)
    ensures WasCreated(log + [e], id, stored) && Mentioned(log, id)
  {
    var sources :| Created(id, sources, stored) in log;
    assert Created(id, sources, stored) in log + [e];
  }

  /** An event that is neither a success nor a deletion of this run leaves its checkpoint live. */
  lemma LiveSnoc(log: seq<Event>, e: Event, id: string, stored: Stored)
    requires Live(log, id, stored) && !IsSuccess(e, id) && e != Removed(id, true)
    ensures Live(log + [e], id, stored)
  {
    CreatedSnoc(log, e, id, stored);
    CountSnoc(log, e, id);
  }

  /** A load followed by a lapse leaves it live as well. */
  lemma LiveAfterLapse(log: seq<Event>, load: Event, lapse: Event, id: string, stored: Stored)
    requires Live(log, id, stored) && load.Loaded? && load.runId == id && IsLapse(lapse, id)
    ensures Live(log + [load] + [lapse], id, stored)
  {
    CreatedSnoc(log, load, id, stored);
    CountSnoc(log, load, id);
    CreatedSnoc(log + [load], lapse, id, stored);
    CountSnoc(log + [load], lapse, id);
  }

  // ---------------------------------------------------------------- the invariant

  ghost predicate MemoryLive(memory: map<string, Stored>, log: seq<Event>) {
    forall id :: id in memory ==> Live(log, id, memory[id])
  }

  ghost predicate DiskLive(disk: map<string, File>, log: seq<Event>) {
    forall id :: id in disk && disk[id].Readable? ==> Live(log, id, disk[id].stored)
  }

  ghost predicate Sound(t: Template, hash: Hash, s: State) {
    MemoryLive(s.memory, s.log) && DiskLive(s.disk, s.log) && SafeLog(t, hash, s.log)
  }

  lemma FoundIsLive(s: State, runId: string)
    requires MemoryLive(s.memory, s.log) && DiskLive(s.disk, s.log)
    ensures var found := Find(s, runId);
      found.Some? ==> Live(s.log, runId, found.value)
  {
  }

  lemma MemoryKept(memory: map<string, Stored>, log: seq<Event>, e: Event)
    requires MemoryLive(memory, log)
    requires forall id :: id in memory ==> !IsSuccess(e, id) && e != Removed(id, true)
    ensures MemoryLive(memory, log + [e])
  {
    forall id | id in memory ensures Live(log + [e], id, memory[id]) { LiveSnoc(log, e, id, memory[id]); }
  }

  lemma DiskKept(disk: map<string, File>, log: seq<Event>, e: Event)
    requires DiskLive(disk, log)
    requires forall id :: id in disk ==> !IsSuccess(e, id) && e != Removed(id, true)
    ensures DiskLive(disk, log + [e])
  {
    forall id | id in disk && disk[id].Readable? ensures Live(log + [e], id, disk[id].stored) {
      LiveSnoc(log, e, id, disk[id].stored);
    }
  }

  lemma FreshIsLive(log: seq<Event>, runId: string, sources: Sources, stored: Stored)
    requires !Mentioned(log, runId)
    ensures Live(log + [Created(runId, sources, stored)], runId, stored)
  {
    var e := Created(runId, sources, stored);
    NothingMentioned(log, runId);
    CountSnoc(log, e, runId);
    assert e in log + [e];
  }

  lemma KeepKeepsLive(s: State, runId: string, sources: Sources, stored: Stored, persist: Persist)
    requires MemoryLive(s.memory, s.log) && DiskLive(s.disk, s.log) && !Mentioned(s.log, runId)
    ensures var next := Keep(s, runId, sources, stored, persist);
      MemoryLive(next.memory, next.log) && DiskLive(next.disk, next.log)
  {
    var e := Created(runId, sources, stored);
    FreshIsLive(s.log, runId, sources, stored);
    MemoryKept(s.memory, s.log, e);
    DiskKept(s.disk, s.log, e);
  }

  lemma KeepIsSound(t: Template, hash: Hash, s: State, runId: string, sources: Sources, stored: Stored, persist: Persist)
    requires Sound(t, hash, s) && !Mentioned(s.log, runId) && Safe(t, hash, s.log, Created(runId, sources, stored))
    ensures Sound(t, hash, Keep(s, runId, sources, stored, persist))
  {
    SafeSnoc(t, hash, s.log, Created(runId, sources, stored));
    KeepKeepsLive(s, runId, sources, stored, persist);
  }

  lemma BeginIsSound(t: Template, hash: Hash, s: State, runId: string, period: string, g: Gathered, persist: Persist)
    requires Sound(t, hash, s) && !Mentioned(s.log, runId)
    requires g.Got? ==> g.reconciliation == Reconciled(g.sources, t.required, period)
    ensures Sound(t, hash, Begin(s, t, hash, runId, period, g, persist).0)
  {
    if g.Got? && g.reconciliation.resolved && g.reconciliation.records != map[] {
      var stored := Made(runId, t, hash, period, RecordList(g.reconciliation.records), g.reconciliation);
      KeepIsSound(t, hash, s, runId, g.sources, stored, persist);
    }
  }

  lemma RememberIsSound(t: Template, hash: Hash, s: State, runId: string, stored: Stored)
    requires Sound(t, hash, s) && Live(s.log, runId, stored)
    ensures Sound(t, hash, Remember(s, runId, stored))
  {
  }

  lemma MemoryForgets(memory: map<string, Stored>, log: seq<Event>, runId: string, unlinked: bool)
    requires MemoryLive(memory - {runId}, log)
    ensures MemoryLive(memory - {runId}, log + [Removed(runId, unlinked)])
  {
    MemoryKept(memory - {runId}, log, Removed(runId, unlinked));
  }

  lemma ForgetIsSound(t: Template, hash: Hash, s: State, runId: string, unlinked: bool)
    requires Sound(t, hash, s) && Mentioned(s.log, runId)
    ensures Sound(t, hash, Forget(s, runId, unlinked))
  {
    var e := Removed(runId, unlinked);
    SafeSnoc(t, hash, s.log, e);
    MemoryForgets(s.memory, s.log, runId, unlinked);
    if unlinked {
      DiskKept(s.disk - {runId}, s.log, e);
    } else {
      DiskKept(s.disk, s.log, e);
    }
  }

  /** A successful load takes the run out of memory, and off the disk unless the deletion fails. */
  lemma LoadedIsSound(t: Template, hash: Hash, s: State, runId: string, e: Event, unlinked: bool)
    requires Sound(t, hash, s) && e.Loaded? && e.runId == runId && Safe(t, hash, s.log, e) && Mentioned(s.log, runId)
    ensures Sound(t, hash, Forget(s.(log := s.log + [e]), runId, unlinked))
  {
    var removed := Removed(runId, unlinked);
    var log := s.log + [e];
    SafeSnoc(t, hash, s.log, e);
    var m :| m in s.log && m.runId == runId;
    assert m in log;
    SafeSnoc(t, hash, log, removed);
    MemoryKept(s.memory - {runId}, s.log, e);
    MemoryForgets(s.memory, log, runId, unlinked);
    DiskAfterLoad(s.disk, s.log, e, unlinked);
  }

  lemma DiskAfterLoad(disk: map<string, File>, log: seq<Event>, e: Event, unlinked: bool)
    requires DiskLive(disk, log) && e.Loaded?
    ensures DiskLive(if unlinked then disk - {e.runId} else disk, log + [e] + [Removed(e.runId, unlinked)])
  {
    var others, removed := disk - {e.runId}, Removed(e.runId, unlinked);
    DiskKept(others, log, e);
    DiskKept(others, log + [e], removed);
    if !unlinked {
      forall id | id in disk && disk[id].Readable? ensures Live(log + [e] + [removed], id, disk[id].stored) {
        if id == e.runId {
          LiveAfterLapse(log, e, removed, id, disk[id].stored);
        } else {
          assert id in others;
        }
      }
    }
  }

  /** A load whose recording raises keeps the checkpoint, in memory and on disk. */
  lemma UnrecordedIsSound(t: Template, hash: Hash, s: State, e: Event)
    requires Sound(t, hash, s) && e.Loaded? && Safe(t, hash, s.log, e) && Mentioned(s.log, e.runId)
    ensures Sound(t, hash, s.(log := s.log + [e] + [Unrecorded(e.runId)]))
  {
    var lapse := Unrecorded(e.runId);
    var log := s.log + [e];
    SafeSnoc(t, hash, s.log, e);
    var m :| m in s.log && m.runId == e.runId;
    assert m in log;
    SafeSnoc(t, hash, log, lapse);
    forall id | id in s.memory ensures Live(log + [lapse], id, s.memory[id]) {
      LiveThrough(s.log, e, id, s.memory[id]);
    }
    forall id | id in s.disk && s.disk[id].Readable? ensures Live(log + [lapse], id, s.disk[id].stored) {
      LiveThrough(s.log, e, id, s.disk[id].stored);
    }
  }

  lemma LiveThrough(log: seq<Event>, e: Event, id: string, stored: Stored)
    requires Live(log, id, stored) && e.Loaded?
    ensures Live(log + [e] + [Unrecorded(e.runId)], id, stored)
  {
    if id == e.runId {
      LiveAfterLapse(log, e, Unrecorded(id), id, stored);
    } else {
      LiveSnoc(log, e, id, stored);
      LiveSnoc(log + [e], Unrecorded(e.runId), id, stored);
    }
  }

  lemma AttemptIsSafe(t: Template, hash: Hash, log: seq<Event>, runId: string, d: Decision, stored: Stored, succeeded: bool)
    requires Live(log, runId, stored) && d.action == "approve_load" && Refusal(runId, t, hash, stored, d) == None
    ensures Safe(t, hash, log, Loaded(runId, d, stored.period, Approved(stored.records, d.approved), succeeded))
  {
    var e := Loaded(runId, d, stored.period, Approved(stored.records, d.approved), succeeded);
    assert Justified(t, hash, log, e, stored);
  }

  lemma FailedLoadIsSound(t: Template, hash: Hash, s: State, e: Event)
    requires Sound(t, hash, s) && e.Loaded? && !e.succeeded && Safe(t, hash, s.log, e)
    ensures Sound(t, hash, s.(log := s.log + [e]))
  {
    SafeSnoc(t, hash, s.log, e);
    MemoryKept(s.memory, s.log, e);
    DiskKept(s.disk, s.log, e);
  }

  lemma FinishIsSound(t: Template, hash: Hash, s: State, e: Event, w: Circumstances)
    requires Sound(t, hash, s) && e.Loaded? && Safe(t, hash, s.log, e) && Mentioned(s.log, e.runId)
    ensures Sound(t, hash, Finish(s.(log := s.log + [e]), e.runId, w).0)
  {
    if w.recording == RaisedAfterLoad {
      UnrecordedIsSound(t, hash, s, e);
    } else {
      LoadedIsSound(t, hash, s, e.runId, e, w.unlinked);
    }
  }

  lemma DecideIsSound(t: Template, hash: Hash, s: State, runId: string, stored: Stored, d: Decision, refusal: Option<string>,
                      w: Circumstances)
    requires Sound(t, hash, s) && Live(s.log, runId, stored)
    requires refusal == Refusal(runId, t, hash, stored, d)
    ensures Sound(t, hash, Decide(s, runId, stored, d, refusal, w).0)
  {
    CreatedSnoc(s.log, Removed(runId, true), runId, stored);
    if w.recording == RaisedBefore {
    } else if d.action != "approve_load" {
      ForgetIsSound(t, hash, s, runId, w.unlinked);
    } else if refusal == None {
      AttemptIsSafe(t, hash, s.log, runId, d, stored, w.loads);
      var e := Loaded(runId, d, stored.period, Approved(stored.records, d.approved), w.loads);
      if w.loads {
        FinishIsSound(t, hash, s, e, w);
      } else {
        FailedLoadIsSound(t, hash, s, e);
      }
    }
  }

  lemma ResumedIsSound(t: Template, hash: Hash, s: State, runId: string, d: Decision, w: Circumstances)
    requires Sound(t, hash, s)
    ensures Sound(t, hash, Resumed(s, t, hash, runId, d, w).0)
  {
    FoundIsLive(s, runId);
    var found := Find(s, runId);
    if found.Some? {
      RememberIsSound(t, hash, s, runId, found.value);
      DecideIsSound(t, hash, Remember(s, runId, found.value), runId, found.value, d,
                    Refusal(runId, t, hash, found.value, d), w);
    }
  }

  // ---------------------------------------------------------------- every run

  datatype Command =
    | Start(runId: string, period: string, a: Answer, b: Answer, enrich: Enrich, persist: Persist)
    | Resume(runId: string, decision: Decision, w: Circumstances)
    | Restart

  function Step(t: Template, hash: Hash, s: State, c: Command): State {
    match c
    case Start(runId, period, a, b, enrich, persist) =>
      Begin(s, t, hash, runId, period, Gather(t.required, period, a, b, enrich), persist).0
    case Resume(runId, d, w) => Resumed(s, t, hash, runId, d, w).0
    case Restart => Restarted(s)
  }

  function After(t: Template, hash: Hash, commands: seq<Command>): State {
    if commands == [] then State(map[], map[], [])
    else Step(t, hash, After(t, hash, commands[..|commands| - 1]), commands[|commands| - 1])
  }

  ghost predicate Started(commands: seq<Command>, runId: string) {
    exists i :: 0 <= i < |commands| && commands[i].Start? && commands[i].runId == runId
  }

  /** Run ids are generated afresh. */
  ghost predicate FreshIds(commands: seq<Command>) {
    forall i :: 0 <= i < |commands| && commands[i].Start? ==> !Started(commands[..i], commands[i].runId)
  }

  lemma MentionedSnoc(log: seq<Event>, e: Event, id: string)
    ensures Mentioned(log + [e], id) ==> Mentioned(log, id) || e.runId == id
  {
  }

  lemma DecideMentions(s: State, runId: string, stored: Stored, d: Decision, refusal: Option<string>, w: Circumstances, id: string)
    requires Mentioned(s.log, runId)
    ensures Mentioned(Decide(s, runId, stored, d, refusal, w).0.log, id) ==> Mentioned(s.log, id)
  {
    var e := Loaded(runId, d, stored.period, Approved(stored.records, d.approved), w.loads);
    MentionedSnoc(s.log, e, id);
    MentionedSnoc(s.log + [e], Removed(runId, w.unlinked), id);
    MentionedSnoc(s.log + [e], Unrecorded(runId), id);
    MentionedSnoc(s.log, Removed(runId, w.unlinked), id);
  }

  lemma ResumedMentions(t: Template, hash: Hash, s: State, runId: string, d: Decision, w: Circumstances, id: string)
    requires Sound(t, hash, s)
    ensures Mentioned(Resumed(s, t, hash, runId, d, w).0.log, id) ==> Mentioned(s.log, id)
  {
    FoundIsLive(s, runId);
    var found := Find(s, runId);
    if found.Some? {
      CreatedSnoc(s.log, Removed(runId, true), runId, found.value);
      DecideMentions(Remember(s, runId, found.value), runId, found.value, d,
                     Refusal(runId, t, hash, found.value, d), w, id);
    }
  }

  lemma BeginMentions(t: Template, hash: Hash, s: State, runId: string, period: string, g: Gathered, persist: Persist, id: string)
    ensures Mentioned(Begin(s, t, hash, runId, period, g, persist).0.log, id) ==> Mentioned(s.log, id) || id == runId
  {
    if g.Got? {
      MentionedSnoc(s.log,
                    Created(runId, g.sources, Made(runId, t, hash, period, RecordList(g.reconciliation.records), g.reconciliation)), id);
    }
  }

  lemma StepMentions(t: Template, hash: Hash, s: State, c: Command, id: string)
    requires Sound(t, hash, s)
    ensures Mentioned(Step(t, hash, s, c).log, id) ==> Mentioned(s.log, id) || (c.Start? && c.runId == id)
  {
    match c
    case Start(runId, period, a, b, enrich, persist) =>
      BeginMentions(t, hash, s, runId, period, Gather(t.required, period, a, b, enrich), persist, id);
    case Resume(runId, d, w) => ResumedMentions(t, hash, s, runId, d, w, id);
    case Restart =>
  }

  lemma StepIsSound(t: Template, hash: Hash, s: State, c: Command)
    requires Sound(t, hash, s) && (c.Start? ==> !Mentioned(s.log, c.runId))
    ensures Sound(t, hash, Step(t, hash, s, c))
  {
    match c
    case Start(runId, period, a, b, enrich, persist) =>
      BeginIsSound(t, hash, s, runId, period, Gather(t.required, period, a, b, enrich), persist);
    case Resume(runId, d, w) => ResumedIsSound(t, hash, s, runId, d, w);
    case Restart =>
  }

  lemma FreshInit(commands: seq<Command>)
    requires FreshIds(commands) && commands != []
    ensures FreshIds(commands[..|commands| - 1])
    ensures var c := commands[|commands| - 1];
      c.Start? ==> !Started(commands[..|commands| - 1], c.runId)
  {
    var init := commands[..|commands| - 1];
    forall i | 0 <= i < |init| && init[i].Start? ensures !Started(init[..i], init[i].runId) {
      assert init[..i] == commands[..i];
    }
  }

  lemma StartedMore(commands: seq<Command>, id: string)
    requires commands != []
    ensures var k := |commands| - 1;
      Started(commands[..k], id) || (commands[k].Start? && commands[k].runId == id) ==> Started(commands, id)
  {
    var k := |commands| - 1;
    if Started(commands[..k], id) {
      var i :| 0 <= i < k && commands[..k][i].Start? && commands[..k][i].runId == id;
      assert commands[i].Start?;
    }
  }

  /** Over every sequence of starts, resumes and restarts, every event of the log is safe. */
  lemma {:induction false} EveryRunIsSafe(t: Template, hash: Hash, commands: seq<Command>)
    requires FreshIds(commands)
    ensures Sound(t, hash, After(t, hash, commands))
    ensures forall id :: Mentioned(After(t, hash, commands).log, id) ==> Started(commands, id)
    decreases |commands|
  {
    if commands == [] {
    } else {
      var k := |commands| - 1;
      FreshInit(commands);
      EveryRunIsSafe(t, hash, commands[..k]);
      var s := After(t, hash, commands[..k]);
      StepIsSound(t, hash, s, commands[k]);
      forall id | Mentioned(Step(t, hash, s, commands[k]).log, id) ensures Started(commands, id) {
        StepMentions(t, hash, s, commands[k], id);
        StartedMore(commands, id);
      }
    }
  }

  // ---------------------------------------------------------------- where checkpoints come from

  /** The start command of this run gathered these sources. */
  ghost predicate StartGathered(t: Template, c: Command, runId: string, sources: Sources) {
    c.Start? && c.runId == runId && Gathers(t.required, c.period, c.a, c.b, c.enrich, sources)
  }

  ghost predicate SomeStartGathered(t: Template, commands: seq<Command>, runId: string, sources: Sources) {
    exists i :: 0 <= i < |commands| && StartGathered(t, commands[i], runId, sources)
  }

  lemma ResumedCreatesNothing(t: Template, hash: Hash, s: State, runId: string, d: Decision, w: Circumstances, e: Event)
    requires e.Created?
    ensures e in Resumed(s, t, hash, runId, d, w).0.log <==> e in s.log
  {
  }

  lemma BegunEvent(t: Template, hash: Hash, s: State, runId: string, period: string, g: Gathered, persist: Persist, e: Event)
    requires e in Begin(s, t, hash, runId, period, g, persist).0.log && e !in s.log
    ensures g.Got? && e.Created? && e.runId == runId && e.sources == g.sources
  {
  }

  lemma BegunCreates(t: Template, hash: Hash, s: State, c: Command, e: Event)
    requires c.Start? && e.Created? && e in Step(t, hash, s, c).log && e !in s.log
    ensures StartGathered(t, c, e.runId, e.sources)
  {
    BegunEvent(t, hash, s, c.runId, c.period, Gather(t.required, c.period, c.a, c.b, c.enrich), c.persist, e);
    GatherMeaning(t.required, c.period, c.a, c.b, c.enrich);
  }

  /** Every checkpoint of every run was made from what the run's own start command gathered. */
  lemma {:induction false} CheckpointsComeFromStarts(t: Template, hash: Hash, commands: seq<Command>, e: Event)
    requires e in After(t, hash, commands).log && e.Created?
    ensures SomeStartGathered(t, commands, e.runId, e.sources)
    decreases |commands|
  {
    var k := |commands| - 1;
    var s := After(t, hash, commands[..k]);
    if e in s.log {
      CheckpointsComeFromStarts(t, hash, commands[..k], e);
      var i :| 0 <= i < k && StartGathered(t, commands[..k][i], e.runId, e.sources);
      assert StartGathered(t, commands[i], e.runId, e.sources);
    } else {
      match commands[k]
      case Start(_, _, _, _, _, _) => BegunCreates(t, hash, s, commands[k], e);
      case Resume(runId, d, w) => ResumedCreatesNothing(t, hash, s, runId, d, w, e);
      case Restart =>
    }
  }

  // ---------------------------------------------------------------- what the safe log means

  lemma GenuineAt(t: Template, hash: Hash, log: seq<Event>, j: nat)
    requires SafeLog(t, hash, log) && j < |log| && log[j].Created?
    ensures Genuine(t, hash, log[j].runId, log[j].sources, log[j].stored)
  {
    assert SafeAt(t, hash, log, j);
  }

  lemma CreationPlace(log: seq<Event>, i: nat, runId: string, stored: Stored) returns (j: nat)
    requires i <= |log| && WasCreated(log[..i], runId, stored)
    ensures j < i && log[j].Created? && log[j].runId == runId && log[j].stored == stored
  {
    var sources :| Created(runId, sources, stored) in log[..i];
    j :| 0 <= j < i && log[..i][j] == Created(runId, sources, stored);
  }

  /** The event that made the checkpoint comes first, and the checkpoint is genuine. */
  lemma CreatedBefore(t: Template, hash: Hash, log: seq<Event>, i: nat, runId: string, stored: Stored) returns (j: nat)
    requires SafeLog(t, hash, log) && i <= |log| && WasCreated(log[..i], runId, stored)
    ensures j < i && log[j].Created? && log[j].runId == runId && log[j].stored == stored
    ensures Genuine(t, hash, runId, log[j].sources, stored)
  {
    j := CreationPlace(log, i, runId, stored);
    GenuineAt(t, hash, log, j);
  }

  lemma LoadWitness(t: Template, hash: Hash, log: seq<Event>, i: nat) returns (stored: Stored)
    requires SafeLog(t, hash, log) && i < |log| && log[i].Loaded?
    ensures Justified(t, hash, log[..i], log[i], stored)
  {
    assert SafeAt(t, hash, log, i);
    stored :| Justified(t, hash, log[..i], log[i], stored);
  }

  lemma RecordListMembers(records: map<string, Record>, r: Record)
    ensures r in RecordList(records) <==> exists id :: id in records && records[id] == r
  {
    var ids := Sorted(records.Keys);
    SortedInKeys(records);
    if r in RecordList(records) {
      var i :| 0 <= i < |ids| && RecordList(records)[i] == r;
      assert ids[i] in records && records[ids[i]] == r;
    }
    if id :| id in records && records[id] == r {
      assert id in ids;
      var i :| 0 <= i < |ids| && ids[i] == id;
      assert RecordList(records)[i] == r;
    }
  }

  /** The loaded records are reconciled records, and their ids are exactly the approved ones. */
  ghost predicate LoadsExactlyApproved(e: Event, reconciliation: Reconciliation)
    requires e.Loaded?
  {
    && IdSet(e.records) == Wanted(e.decision.approved)
    && forall r :: r in e.records ==> exists id :: id in reconciliation.records && reconciliation.records[id] == r
  }

  /** The record's id is a text on the list. */
  ghost predicate HasApprovedId(r: Record, ids: seq<string>) {
    exists id :: id in ids && Get(r, PATENT_ID) == Str(id)
  }

  /** The loaded records are the records at these places, which are the places of all records with an approved id. */
  ghost predicate PickedAt(loaded: seq<Record>, records: seq<Record>, ids: seq<string>, places: seq<nat>) {
    && |places| == |loaded|
    && (forall i, j :: 0 <= i < j < |places| ==> places[i] < places[j])
    && (forall i :: 0 <= i < |places| ==> places[i] < |records| && loaded[i] == records[places[i]])
    && (forall k: nat :: k < |records| ==> (k in places <==> HasApprovedId(records[k], ids)))
  }

  /** Every record with an approved id is loaded as often as it is held, in the order held, and no other record is. */
  ghost predicate LoadsInFull(loaded: seq<Record>, records: seq<Record>, ids: seq<string>) {
    && (exists places :: PickedAt(loaded, records, ids, places))
    && (forall r :: multiset(loaded)[r] == if HasApprovedId(r, ids) then multiset(records)[r] else 0)
  }

  lemma ApprovedSnoc(records: seq<Record>, r: Record, ids: seq<string>)
    ensures Approved(records + [r], ids) == Approved(records, ids) + if HasApprovedId(r, ids) then [r] else []
  {
    assert (records + [r])[..|records|] == records;
  }

  lemma PickedSnoc(loaded: seq<Record>, records: seq<Record>, r: Record, ids: seq<string>, places: seq<nat>)
    requires PickedAt(loaded, records, ids, places)
    ensures HasApprovedId(r, ids) ==> PickedAt(loaded + [r], records + [r], ids, places + [|records|])
    ensures !HasApprovedId(r, ids) ==> PickedAt(loaded, records + [r], ids, places)
  {
    var all := records + [r];
    forall k: nat | k < |all| ensures k in places + [|records|] <==> k in places || k == |records| {}
    assert forall p :: p in places ==> p < |records|;
  }

  lemma {:induction false} ApprovedPlaces(records: seq<Record>, ids: seq<string>) returns (places: seq<nat>)
    ensures PickedAt(Approved(records, ids), records, ids, places)
    decreases |records|
  {
    if records == [] {
      places := [];
    } else {
      var last := |records| - 1;
      places := ApprovedPlaces(records[..last], ids);
      assert records == records[..last] + [records[last]];
      ApprovedSnoc(records[..last], records[last], ids);
      PickedSnoc(Approved(records[..last], ids), records[..last], records[last], ids, places);
      if HasApprovedId(records[last], ids) { places := places + [last]; }
    }
  }

  lemma {:induction false} ApprovedCounts(records: seq<Record>, ids: seq<string>, r: Record)
    ensures multiset(Approved(records, ids))[r] == if HasApprovedId(r, ids) then multiset(records)[r] else 0
    decreases |records|
  {
    if records == [] {
    } else {
      var last := |records| - 1;
      ApprovedCounts(records[..last], ids, r);
      assert records == records[..last] + [records[last]];
    }
  }

  lemma ApprovedInFull(records: seq<Record>, ids: seq<string>)
    ensures LoadsInFull(Approved(records, ids), records, ids)
  {
    var places := ApprovedPlaces(records, ids);
    forall r ensures multiset(Approved(records, ids))[r] == if HasApprovedId(r, ids) then multiset(records)[r] else 0 {
      ApprovedCounts(records, ids, r);
    }
  }

  lemma PickedIncreasing(loaded: seq<Record>, records: seq<Record>, ids: seq<string>, places: seq<nat>)
    requires PickedAt(loaded, records, ids, places) && Increasing(KeyLess, records)
    ensures Increasing(KeyLess, loaded)
  {
  }

  ghost predicate TextIds(loaded: seq<Record>) {
    forall r :: r in loaded ==> Get(r, PATENT_ID).Str?
  }

  lemma LastIdIsNew(loaded: seq<Record>)
    requires loaded != [] && DistinctKeys(loaded) && TextIds(loaded)
    ensures Get(loaded[|loaded| - 1], PATENT_ID) !in IdSet(loaded[..|loaded| - 1])
  {
    var last := |loaded| - 1;
    forall q | q in loaded[..last] ensures Get(q, PATENT_ID) != Get(loaded[last], PATENT_ID) {
      var i :| 0 <= i < last && loaded[i] == q;
      assert loaded[i] in loaded && loaded[last] in loaded;
      assert Key(loaded[i]) != Key(loaded[last]);
    }
  }

  lemma {:induction false} DistinctKeyCount(loaded: seq<Record>)
    requires DistinctKeys(loaded) && TextIds(loaded)
    ensures |IdSet(loaded)| == |loaded|
    decreases |loaded|
  {
    if loaded == [] {
    } else {
      var last := |loaded| - 1;
      assert loaded == loaded[..last] + [loaded[last]];
      LastIdIsNew(loaded);
      DistinctKeyCount(loaded[..last]);
      assert IdSet(loaded) == IdSet(loaded[..last]) + {Get(loaded[last], PATENT_ID)};
    }
  }

  lemma WantedCount(ids: seq<string>)
    ensures |Wanted(ids)| == |set id | id in ids|
  {
    var texts := set id | id in ids;
    assert Wanted(ids) == set id | id in texts :: Str(id);
    StrCount(texts);
  }

  lemma {:induction false} StrCount(texts: set<string>)
    ensures |set id | id in texts :: Str(id)| == |texts|
    decreases |texts|
  {
    if texts == {} {
      assert (set id | id in texts :: Str(id)) == {};
    } else {
      var x :| x in texts;
      var rest := texts - {x};
      StrCount(rest);
      assert (set id | id in texts :: Str(id)) == (set id | id in rest :: Str(id)) + {Str(x)};
    }
  }

  /** Of records in increasing order of their ids, one is loaded for each approved id, in that order. */
  lemma OnePerApprovedId(loaded: seq<Record>, records: seq<Record>, ids: seq<string>)
    requires LoadsInFull(loaded, records, ids) && Increasing(KeyLess, records) && IdSet(loaded) == Wanted(ids)
    ensures Increasing(KeyLess, loaded) && |loaded| == |set id | id in ids|
  {
    var places :| PickedAt(loaded, records, ids, places);
    PickedIncreasing(loaded, records, ids, places);
    IncreasingIff(loaded);
    forall r | r in loaded ensures Get(r, PATENT_ID).Str? { assert Get(r, PATENT_ID) in IdSet(loaded); }
    DistinctKeyCount(loaded);
    WantedCount(ids);
  }

  /**
   Every load of every run: it follows the run's own checkpoint, which came from sources
   that the run's start gathered and that satisfy every rule; the decision approved the load and passed validation; and it
   loads exactly the approved records, one for each approved id, in the order of their ids.
   */
  lemma LoadsAreAuthorized(t: Template, hash: Hash, commands: seq<Command>, i: nat) returns (j: nat)
    requires FreshIds(commands) && i < |After(t, hash, commands).log| && After(t, hash, commands).log[i].Loaded?
    ensures var log := After(t, hash, commands).log;
      var e := log[i];
      && j < i && log[j].Created? && log[j].runId == e.runId
      && SomeStartGathered(t, commands, e.runId, log[j].sources)
      && RulesHold(log[j].sources, t.required, e.period)
      && Genuine(t, hash, e.runId, log[j].sources, log[j].stored)
      && e.period == log[j].stored.period
      && e.decision.action == "approve_load"
      && Validate(e.runId, t, hash, log[j].stored, e.decision) == None
      && LoadsExactlyApproved(e, log[j].stored.reconciliation)
      && LoadsInFull(e.records, log[j].stored.records, e.decision.approved)
      && Increasing(KeyLess, e.records) && |e.records| == |set id | id in e.decision.approved|
  {
    EveryRunIsSafe(t, hash, commands);
    var log := After(t, hash, commands).log;
    var stored := LoadWitness(t, hash, log, i);
    j := CreatedBefore(t, hash, log, i, log[i].runId, stored);
    CheckpointsComeFromStarts(t, hash, commands, log[j]);
    ResolvedIff(log[j].sources, t.required, stored.period);
    JustifiedLoadsApproved(t, hash, log[..i], log[i], stored);
    JustifiedLoadsInFull(t, hash, log[..i], log[i], stored);
    PayloadRecords(log[j].sources, log[i].runId, t, stored.period);
    OnePerApprovedId(log[i].records, stored.records, log[i].decision.approved);
  }

  lemma JustifiedLoadsInFull(t: Template, hash: Hash, before: seq<Event>, e: Event, stored: Stored)
    requires e.Loaded? && Justified(t, hash, before, e, stored)
    ensures LoadsInFull(e.records, stored.records, e.decision.approved)
    ensures IdSet(e.records) == Wanted(e.decision.approved)
  {
    ApprovedInFull(stored.records, e.decision.approved);
  }

  lemma JustifiedLoadsApproved(t: Template, hash: Hash, before: seq<Event>, e: Event, stored: Stored)
    requires e.Loaded? && Justified(t, hash, before, e, stored)
    requires stored.records == RecordList(stored.reconciliation.records)
    ensures LoadsExactlyApproved(e, stored.reconciliation)
    ensures Validate(e.runId, t, hash, stored, e.decision) == None
  {
    forall r | r in e.records ensures exists id :: id in stored.reconciliation.records && stored.reconciliation.records[id] == r {
      assert r in stored.records;
      RecordListMembers(stored.reconciliation.records, r);
    }
  }

  lemma SafeInit(t: Template, hash: Hash, log: seq<Event>)
    requires SafeLog(t, hash, log) && log != []
    ensures SafeLog(t, hash, log[..|log| - 1]) && SafeAt(t, hash, log, |log| - 1)
  {
    var init := log[..|log| - 1];
    forall i | 0 <= i < |init| ensures SafeAt(t, hash, init, i) {
      assert init[..i] == log[..i];
      SafeAtSame(t, hash, log, init, i);
    }
  }

  lemma SuccessAllowed(t: Template, hash: Hash, log: seq<Event>, runId: string)
    requires log != [] && SafeAt(t, hash, log, |log| - 1) && IsSuccess(log[|log| - 1], runId)
    ensures Successes(log, runId) <= 1 + Lapses(log, runId)
  {
    var k := |log| - 1;
    var stored :| Justified(t, hash, log[..k], log[k], stored);
  }

  lemma {:induction false} SuccessesBounded(t: Template, hash: Hash, log: seq<Event>, runId: string)
    requires SafeLog(t, hash, log)
    ensures Successes(log, runId) <= 1 + Lapses(log, runId)
    decreases |log|
  {
    if log == [] {
    } else {
      SafeInit(t, hash, log);
      if IsSuccess(log[|log| - 1], runId) {
        SuccessAllowed(t, hash, log, runId);
      } else {
        SuccessesBounded(t, hash, log[..|log| - 1], runId);
      }
    }
  }

  /** A run id is loaded successfully at most once, plus once for each load followed by a failed deletion or not recorded. */
  lemma LoadsAtMostOnce(t: Template, hash: Hash, commands: seq<Command>, runId: string)
    requires FreshIds(commands)
    ensures var log := After(t, hash, commands).log;
      && Successes(log, runId) <= 1 + Lapses(log, runId)
      && (Lapses(log, runId) == 0 ==> Successes(log, runId) <= 1)
  {
    EveryRunIsSafe(t, hash, commands);
    SuccessesBounded(t, hash, After(t, hash, commands).log, runId);
  }

  /** Once its checkpoint is deleted, by a load or by a refusal, a run is never loaded again. */
  lemma NoLoadAfterDeletion(t: Template, hash: Hash, commands: seq<Command>, i: nat, j: nat)
    requires FreshIds(commands) && i < j < |After(t, hash, commands).log|
    requires var log := After(t, hash, commands).log;
      log[i].Removed? && log[i].unlinked && log[j].Loaded?
    ensures After(t, hash, commands).log[i].runId != After(t, hash, commands).log[j].runId
  {
    EveryRunIsSafe(t, hash, commands);
    var log := After(t, hash, commands).log;
    var stored := LoadWitness(t, hash, log, j);
    assert log[..j][i] == log[i];
  }

  // ---------------------------------------------------------------- failing loads, restarts and failed deletions

  /** The decision is accepted for the checkpoint the engine finds. */
  ghost predicate Accepts(t: Template, hash: Hash, s: State, runId: string, d: Decision) {
    && Find(s, runId).Some? && d.action == "approve_load"
    && Refusal(runId, t, hash, Find(s, runId).value, d) == None
  }

  /** One try at resuming a run. */
  datatype Try = Try(decision: Decision, met: Circumstances)

  /** The engine after resuming a run with each try in turn. */
  function Retried(s: State, t: Template, hash: Hash, runId: string, tries: seq<Try>): State
    decreases |tries|
  {
    if tries == [] then s
    else
      var k := |tries| - 1;
      Resumed(Retried(s, t, hash, runId, tries[..k]), t, hash, runId, tries[k].decision, tries[k].met).0
  }

  /** None of the tries reported the run as completed or closed. */
  ghost predicate NoneFinished(s: State, t: Template, hash: Hash, runId: string, tries: seq<Try>) {
    forall k :: 0 <= k < |tries| ==>
      Resumed(Retried(s, t, hash, runId, tries[..k]), t, hash, runId, tries[k].decision, tries[k].met).1.state
        !in {"completed", "closed"}
  }

  lemma UnfinishedKeeps(t: Template, hash: Hash, s: State, runId: string, d: Decision, w: Circumstances)
    requires Resumed(s, t, hash, runId, d, w).1.state !in {"completed", "closed"}
    ensures var next := Resumed(s, t, hash, runId, d, w).0;
      next.disk == s.disk && forall id :: Find(next, id) == Find(s, id)
  {
  }

  /** Refused decisions, failed loads and raising writes keep every checkpoint. */
  lemma {:induction false} RetriesKeep(t: Template, hash: Hash, s: State, runId: string, tries: seq<Try>)
    requires NoneFinished(s, t, hash, runId, tries)
    ensures var next := Retried(s, t, hash, runId, tries);
      next.disk == s.disk && forall id :: Find(next, id) == Find(s, id)
    decreases |tries|
  {
    if tries == [] {
    } else {
      var k := |tries| - 1;
      var init := tries[..k];
      forall j | 0 <= j < k ensures init[..j] == tries[..j] {}
      RetriesKeep(t, hash, s, runId, init);
      UnfinishedKeeps(t, hash, Retried(s, t, hash, runId, init), runId, tries[k].decision, tries[k].met);
    }
  }

  lemma CreatedFirstTime(t: Template, hash: Hash, log: seq<Event>, i: nat, j: nat)
    requires SafeLog(t, hash, log) && i < j < |log| && log[j].Created?
    ensures log[i].runId != log[j].runId
  {
    assert SafeAt(t, hash, log, j);
    assert log[..j][i] == log[i];
  }

  lemma CreatedAtOnePlace(t: Template, hash: Hash, log: seq<Event>, i: nat, j: nat)
    requires SafeLog(t, hash, log) && i < |log| && j < |log| && log[i].Created? && log[j].Created?
    ensures log[i].runId == log[j].runId ==> i == j
  {
    if i < j {
      CreatedFirstTime(t, hash, log, i, j);
    } else if j < i {
      CreatedFirstTime(t, hash, log, j, i);
    }
  }

  lemma CreatedOnce(t: Template, hash: Hash, log: seq<Event>, runId: string, a: Stored, b: Stored)
    requires SafeLog(t, hash, log) && WasCreated(log, runId, a) && WasCreated(log, runId, b)
    ensures a == b
  {
    assert log[..|log|] == log;
    var i := CreationPlace(log, |log|, runId, a);
    var j := CreationPlace(log, |log|, runId, b);
    CreatedAtOnePlace(t, hash, log, i, j);
  }

  ghost predicate OnDisk(s: State, runId: string) {
    runId in s.disk && s.disk[runId].Readable?
  }

  /** The file and the memory copy of a run are the same checkpoint. */
  lemma CopiesAgree(t: Template, hash: Hash, s: State, runId: string)
    requires Sound(t, hash, s) && OnDisk(s, runId)
    ensures Find(s, runId) == Some(s.disk[runId].stored)
  {
    if runId in s.memory {
      CreatedOnce(t, hash, s.log, runId, s.memory[runId], s.disk[runId].stored);
    }
  }

  /** A restart loses a checkpoint exactly when its file is not readable. */
  lemma RestartKeepsIff(t: Template, hash: Hash, s: State, runId: string)
    requires Sound(t, hash, s) && Find(s, runId).Some?
    ensures Find(Restarted(s), runId) == Find(s, runId) <==> OnDisk(s, runId)
    ensures !OnDisk(s, runId) ==> Find(Restarted(s), runId) == None
  {
    if OnDisk(s, runId) { CopiesAgree(t, hash, s, runId); }
  }

  lemma CompletedMeans(t: Template, hash: Hash, s: State, runId: string, d: Decision, w: Circumstances)
    ensures Resumed(s, t, hash, runId, d, w).1 == ResumeResult("completed", "") <==>
      Accepts(t, hash, s, runId, d) && w.loads && w.recording == Recorded
  {
  }

  lemma AfterLoad(t: Template, hash: Hash, s: State, runId: string, d: Decision, w: Circumstances)
    requires Accepts(t, hash, s, runId, d) && w.loads && w.recording != RaisedBefore
    ensures var done := Resumed(s, t, hash, runId, d, w).0;
      if w.recording == RaisedAfterLoad then
        runId in done.memory && done.memory[runId] == Find(s, runId).value && done.disk == s.disk
      else
        runId !in done.memory && done.disk == if w.unlinked then s.disk - {runId} else s.disk
  {
  }

  lemma AfterRefusal(t: Template, hash: Hash, s: State, runId: string, d: Decision, w: Circumstances)
    requires Find(s, runId).Some? && d.action != "approve_load" && w.recording != RaisedBefore
    ensures var done := Resumed(s, t, hash, runId, d, w).0;
      runId !in done.memory && done.disk == if w.unlinked then s.disk - {runId} else s.disk
  {
  }

  /** What is found of a run that has left the memory is what its file holds. */
  lemma FoundOnDisk(t: Template, hash: Hash, s: State, runId: string, done: State, unlinked: bool)
    requires Sound(t, hash, s) && runId !in done.memory && done.disk == if unlinked then s.disk - {runId} else s.disk
    ensures Find(done, runId) == if !unlinked && OnDisk(s, runId) then Find(s, runId) else None
  {
    if OnDisk(s, runId) { CopiesAgree(t, hash, s, runId); }
  }

  /**
   After a successful load, the same approval loads a second time exactly when recording the
   first load raised, or deleting the checkpoint failed and its file is readable; with a
   restart in between, exactly when one of the two failed and the file is readable.
   */
  lemma SecondLoadIff(t: Template, hash: Hash, s: State, runId: string, d: Decision, w: Circumstances, again: Circumstances)
    requires Sound(t, hash, s) && Accepts(t, hash, s, runId, d) && w.loads && w.recording != RaisedBefore
    requires again.loads && again.recording == Recorded
    ensures var done := Resumed(s, t, hash, runId, d, w).0;
      && (Resumed(done, t, hash, runId, d, again).1 == ResumeResult("completed", "") <==>
           w.recording == RaisedAfterLoad || (!w.unlinked && OnDisk(s, runId)))
      && (Resumed(Restarted(done), t, hash, runId, d, again).1 == ResumeResult("completed", "") <==>
           (w.recording == RaisedAfterLoad || !w.unlinked) && OnDisk(s, runId))
  {
    var done := Resumed(s, t, hash, runId, d, w).0;
    AfterLoad(t, hash, s, runId, d, w);
    CompletedMeans(t, hash, done, runId, d, again);
    CompletedMeans(t, hash, Restarted(done), runId, d, again);
    FoundOnDisk(t, hash, s, runId, Restarted(done), w.recording != RaisedAfterLoad && w.unlinked);
    if w.recording != RaisedAfterLoad { FoundOnDisk(t, hash, s, runId, done, w.unlinked); }
  }

  /**
   A refused run is completed by a later approving decision, in the same process or a new
   one, exactly when deleting its checkpoint failed and the file is readable.
   */
  lemma RefusedThenLoadedIff(t: Template, hash: Hash, s: State, runId: string, refused: Decision, w: Circumstances,
                             d: Decision, again: Circumstances)
    requires Sound(t, hash, s) && Accepts(t, hash, s, runId, d)
    requires refused.action != "approve_load" && w.recording != RaisedBefore && again.loads && again.recording == Recorded
    ensures var done := Resumed(s, t, hash, runId, refused, w).0;
      && (Resumed(done, t, hash, runId, d, again).1 == ResumeResult("completed", "") <==> !w.unlinked && OnDisk(s, runId))
      && (Resumed(Restarted(done), t, hash, runId, d, again).1 == ResumeResult("completed", "") <==>
           !w.unlinked && OnDisk(s, runId))
  {
    var done := Resumed(s, t, hash, runId, refused, w).0;
    AfterRefusal(t, hash, s, runId, refused, w);
    CompletedMeans(t, hash, done, runId, d, again);
    CompletedMeans(t, hash, Restarted(done), runId, d, again);
    FoundOnDisk(t, hash, s, runId, done, w.unlinked);
    FoundOnDisk(t, hash, s, runId, Restarted(done), w.unlinked);
  }

  // ---------------------------------------------------------------- how a run ends

  ghost predicate SomeKnown(sources: Sources) {
    exists id :: Known(sources, id)
  }

  lemma NoRecordsIff(sources: Sources, required: seq<string>, period: string)
    ensures Reconciled(sources, required, period).records == map[] <==> !SomeKnown(sources)
  {
    forall id ensures id in Reconciled(sources, required, period).records <==> Known(sources, id) {
      RecordOf(sources, required, period, id);
    }
  }

  /** The run gathers these sources and every rule holds of them, for at least one id. */
  ghost predicate PassesGate(required: seq<string>, period: string, a: Answer, b: Answer, enrich: Enrich, sources: Sources) {
    Gathers(required, period, a, b, enrich, sources) && RulesHold(sources, required, period) && SomeKnown(sources)
  }

  /** What a run reports and whether it leaves a checkpoint, on the answers of its connectors. */
  lemma RunOutcome(t: Template, hash: Hash, s: State, runId: string, period: string, a: Answer, b: Answer, enrich: Enrich,
                   persist: Persist)
    requires Find(s, runId) == None
    ensures var (next, r) := Begin(s, t, hash, runId, period, Gather(t.required, period, a, b, enrich), persist);
      var gated := exists sources :: PassesGate(t.required, period, a, b, enrich, sources);
      && (r.state == "paused" <==>
           exists sources :: Gathers(t.required, period, a, b, enrich, sources) && !RulesHold(sources, t.required, period))
      && (r.state == "closed" <==>
           exists sources :: Gathers(t.required, period, a, b, enrich, sources) && RulesHold(sources, t.required, period)
             && !SomeKnown(sources))
      && (r.state == "checkpoint_required" <==> gated && persist == Written)
      && (r.state == "failed" <==> GatheringFails(t.required, period, a, b, enrich) || (gated && persist != Written))
      && (Find(next, runId).Some? <==> gated)
      && (!gated ==> next == s)
  {
    var g := Gather(t.required, period, a, b, enrich);
    GatherMeaning(t.required, period, a, b, enrich);
    if g.Got? {
      assert Gathers(t.required, period, a, b, enrich, g.sources);
      ResolvedIff(g.sources, t.required, period);
      NoRecordsIff(g.sources, t.required, period);
      assert PassesGate(t.required, period, a, b, enrich, g.sources) <==>
        g.reconciliation.resolved && g.reconciliation.records != map[];
    }
  }

  /** The reason a run reports with its state, and whether it hands out a checkpoint. */
  lemma RunReasons(t: Template, hash: Hash, s: State, runId: string, period: string, g: Gathered, persist: Persist)
    ensures var r := Begin(s, t, hash, runId, period, g, persist).1;
      && (r.state, r.reason) in {("failed", "workflow_failed"), ("paused", "human_gate_unresolved"), ("closed", "no_records_to_load"),
                                 ("checkpoint_required", "explicit_checkpoint_required")}
      && (r.trusted.Some? <==> r.state == "checkpoint_required")
  {
  }

  /** The checkpoint made of these sources is kept: in memory, in the log, and in its file as the write ends. */
  ghost predicate KeptAs(s: State, next: State, runId: string, sources: Sources, stored: Stored, persist: Persist) {
    && OthersKept(s, next, runId)
    && next.log == s.log + [Created(runId, sources, stored)]
    && runId in next.memory && next.memory[runId] == stored
    && match persist
       case Written => runId in next.disk && next.disk[runId] == Readable(stored)
       case WrittenThenRaised => runId in next.disk && next.disk[runId] == Readable(stored)
       case PartlyWritten => runId in next.disk && next.disk[runId] == Unreadable
       case NotWritten => (runId in next.disk <==> runId in s.disk) && (runId in s.disk ==> next.disk[runId] == s.disk[runId])
  }

  lemma KeepKeepsAs(s: State, runId: string, sources: Sources, stored: Stored, persist: Persist)
    ensures KeptAs(s, Keep(s, runId, sources, stored, persist), runId, sources, stored, persist)
  {
  }

  lemma PassedGate(t: Template, period: string, a: Answer, b: Answer, enrich: Enrich, sources: Sources)
    requires PassesGate(t.required, period, a, b, enrich, sources)
    ensures var r := Reconciled(sources, t.required, period);
      Gather(t.required, period, a, b, enrich) == Got(sources, r) && r.resolved && r.records != map[]
  {
    GatherMeaning(t.required, period, a, b, enrich);
    ResolvedIff(sources, t.required, period);
    NoRecordsIff(sources, t.required, period);
  }

  lemma BegunAs(s: State, t: Template, hash: Hash, runId: string, period: string, sources: Sources, r: Reconciliation, persist: Persist)
    requires r.resolved && r.records != map[]
    ensures var (next, result) := Begin(s, t, hash, runId, period, Got(sources, r), persist);
      var stored := Made(runId, t, hash, period, RecordList(r.records), r);
      next == Keep(s, runId, sources, stored, persist) && (result.trusted.Some? ==> result.trusted == stored.trusted)
  {
  }

  /** What a run that passes the gate leaves: the checkpoint of what it gathered, also in what it hands out. */
  lemma RunLeaves(t: Template, hash: Hash, s: State, runId: string, period: string, a: Answer, b: Answer, enrich: Enrich,
                  persist: Persist, sources: Sources)
    requires PassesGate(t.required, period, a, b, enrich, sources)
    ensures var (next, result) := Begin(s, t, hash, runId, period, Gather(t.required, period, a, b, enrich), persist);
      var r := Reconciled(sources, t.required, period);
      var stored := Made(runId, t, hash, period, RecordList(r.records), r);
      KeptAs(s, next, runId, sources, stored, persist) && (result.trusted.Some? ==> result.trusted == stored.trusted)
  {
    var r := Reconciled(sources, t.required, period);
    PassedGate(t, period, a, b, enrich, sources);
    BegunAs(s, t, hash, runId, period, sources, r, persist);
    KeepKeepsAs(s, runId, sources, Made(runId, t, hash, period, RecordList(r.records), r), persist);
  }

  // ---------------------------------------------------------------- the payload

  lemma SeenIdText(sources: Sources, id: string, v: Val)
    requires Seen(sources, id, PATENT_ID, v)
    ensures Text(v) == id
  {
    var s, r :| Holds(sources, s, r) && HasId(r) && IdOf(r) == id && Shows(s, r, PATENT_ID, v);
  }

  /** In a resolved reconciliation every record carries its own id. */
  lemma RecordCarriesItsId(sources: Sources, required: seq<string>, period: string, id: string)
    requires Reconciled(sources, required, period).resolved && id in Reconciled(sources, required, period).records
    ensures Key(Reconciled(sources, required, period).records[id]) == id
  {
    ResolvedRecords(sources, required, period, id);
    IdOfIsNotMissing(sources, id);
    var r := Reconciled(sources, required, period).records[id];
    assert PATENT_ID in r;
    SeenIdText(sources, id, r[PATENT_ID]);
  }

  lemma ListIncreasing(records: map<string, Record>)
    requires forall id :: id in records ==> Key(records[id]) == id
    ensures Increasing(KeyLess, RecordList(records))
  {
    var ids := Sorted(records.Keys);
    SortedInKeys(records);
    forall i, j | 0 <= i < j < |ids| ensures Less(Key(RecordList(records)[i]), Key(RecordList(records)[j])) {
      assert ids[i] in records && ids[j] in records;
    }
  }

  lemma SortOfIncreasing(records: seq<Record>)
    requires Increasing(KeyLess, records)
    ensures SortRecords(records) == records
  {
    SortRecordsMeaning(records);
    IncreasingIff(records);
    KeysOfPermutation(records, SortRecords(records));
    IncreasingIff(SortRecords(records));
    KeyLessIsOrder();
    IncreasingUnique(KeyLess, SortRecords(records), records);
  }

  /** The hashed records are the reconciled records, in increasing order of their ids. */
  lemma PayloadRecords(sources: Sources, runId: string, t: Template, period: string)
    requires Reconciled(sources, t.required, period).resolved
    ensures var r := Reconciled(sources, t.required, period);
      && PayloadOf(runId, t, period, RecordList(r.records), r).records == RecordList(r.records)
      && Increasing(KeyLess, RecordList(r.records))
  {
    forall id | id in Reconciled(sources, t.required, period).records
      ensures Key(Reconciled(sources, t.required, period).records[id]) == id
    {
      RecordCarriesItsId(sources, t.required, period, id);
    }
    ListIncreasing(Reconciled(sources, t.required, period).records);
    SortOfIncreasing(RecordList(Reconciled(sources, t.required, period).records));
  }

  /** Reordering the records inside the sources leaves the checkpoint as it is. */
  lemma CheckpointIgnoresOrder(a: Sources, b: Sources, runId: string, t: Template, hash: Hash, period: string)
    requires Permuted(a, b) && Reconciled(a, t.required, period).resolved
    ensures var x, y := Reconciled(a, t.required, period), Reconciled(b, t.required, period);
      Made(runId, t, hash, period, RecordList(x.records), x) == Made(runId, t, hash, period, RecordList(y.records), y)
  {
    PermutationInvariant(a, b, t.required, period);
  }

  // ---------------------------------------------------------------- from a run to its approval

  /** The id is a text that some record carries as its own id. */
  ghost predicate IsRecordId(sources: Sources, id: string) {
    Seen(sources, id, PATENT_ID, Str(id))
  }

  ghost predicate IsListed(records: map<string, Record>, id: string) {
    exists r :: r in RecordList(records) && Get(r, PATENT_ID) == Str(id)
  }

  lemma ListedIdIff(sources: Sources, required: seq<string>, period: string, id: string)
    requires Reconciled(sources, required, period).resolved
    ensures IsListed(Reconciled(sources, required, period).records, id) <==> IsRecordId(sources, id)
  {
    if IsListed(Reconciled(sources, required, period).records, id) { ListedIsRecordId(sources, required, period, id); }
    if IsRecordId(sources, id) { RecordIdIsListed(sources, required, period, id); }
  }

  lemma ListedIsRecordId(sources: Sources, required: seq<string>, period: string, id: string)
    requires Reconciled(sources, required, period).resolved && IsListed(Reconciled(sources, required, period).records, id)
    ensures IsRecordId(sources, id)
  {
    var records := Reconciled(sources, required, period).records;
    var k := ListedAt(records, id);
    RecordCarriesItsId(sources, required, period, k);
    RecordIdIsSeen(sources, required, period, k);
  }

  lemma ListedAt(records: map<string, Record>, id: string) returns (k: string)
    requires IsListed(records, id)
    ensures k in records && Get(records[k], PATENT_ID) == Str(id)
  {
    var r :| r in RecordList(records) && Get(r, PATENT_ID) == Str(id);
    RecordListMembers(records, r);
    k :| k in records && records[k] == r;
  }

  lemma RecordIdIsSeen(sources: Sources, required: seq<string>, period: string, k: string)
    requires Reconciled(sources, required, period).resolved && k in Reconciled(sources, required, period).records
    ensures var r := Reconciled(sources, required, period).records[k];
      PATENT_ID in r ==> Seen(sources, k, PATENT_ID, r[PATENT_ID])
  {
    ResolvedRecords(sources, required, period, k);
    assert Faithful(sources, required, k, Reconciled(sources, required, period).records[k]);
  }

  lemma RecordIdIsListed(sources: Sources, required: seq<string>, period: string, id: string)
    requires Reconciled(sources, required, period).resolved && IsRecordId(sources, id)
    ensures IsListed(Reconciled(sources, required, period).records, id)
  {
    var records := Reconciled(sources, required, period).records;
    ResolvedRecords(sources, required, period, id);
    assert Lookup(records[id], PATENT_ID) == Some(Str(id));
    RecordListMembers(records, records[id]);
  }

  lemma ApprovedFoundIff(records: map<string, Record>, ids: seq<string>)
    ensures IdSet(Approved(RecordList(records), ids)) == Wanted(ids) <==> forall id :: id in ids ==> IsListed(records, id)
  {
    var found := IdSet(Approved(RecordList(records), ids));
    if forall id :: id in ids ==> IsListed(records, id) {
      forall v ensures v in found <==> v in Wanted(ids) {}
    }
    if found == Wanted(ids) {
      forall id | id in ids ensures IsListed(records, id) { assert Str(id) in Wanted(ids); }
    }
  }

  /** The decision approves the load, echoes the checkpoint and names only ids of the gathered records. */
  ghost predicate ApprovesRun(sources: Sources, trusted: Trusted, d: Decision) {
    && d.action == "approve_load" && d.hash != "" && d.hash == trusted.hash && d.identity == trusted.identity
    && forall id :: id in d.approved ==> IsRecordId(sources, id)
  }

  lemma MadeAcceptedIff(sources: Sources, t: Template, hash: Hash, runId: string, period: string, d: Decision)
    requires Reconciled(sources, t.required, period).resolved
    ensures var r := Reconciled(sources, t.required, period);
      var stored := Made(runId, t, hash, period, RecordList(r.records), r);
      d.action == "approve_load" && Refusal(runId, t, hash, stored, d) == None <==> ApprovesRun(sources, stored.trusted.value, d)
  {
    var r := Reconciled(sources, t.required, period);
    MadeValidates(runId, t, hash, period, RecordList(r.records), r, d);
    ApprovedAreRecordIds(sources, t.required, period, d.approved);
  }

  lemma ApprovedAreRecordIds(sources: Sources, required: seq<string>, period: string, ids: seq<string>)
    requires Reconciled(sources, required, period).resolved
    ensures IdSet(Approved(RecordList(Reconciled(sources, required, period).records), ids)) == Wanted(ids) <==>
      forall id :: id in ids ==> IsRecordId(sources, id)
  {
    var records := Reconciled(sources, required, period).records;
    ApprovedFoundIff(records, ids);
    forall id ensures IsListed(records, id) <==> IsRecordId(sources, id) { ListedIdIff(sources, required, period, id); }
  }

  /** The run passed the gate: every rule held and there is something to load. */
  ghost predicate Gated(g: Gathered, required: seq<string>, period: string) {
    g.Got? && g.reconciliation == Reconciled(g.sources, required, period) && g.reconciliation.resolved
    && g.reconciliation.records != map[]
  }

  predicate IsWritten(persist: Persist) {
    persist == Written || persist == WrittenThenRaised
  }

  lemma FoundAfterTries(t: Template, hash: Hash, s: State, runId: string, period: string, g: Gathered, persist: Persist,
                        tries: seq<Try>)
    requires Find(s, runId) == None && Gated(g, t.required, period)
    requires NoneFinished(Begin(s, t, hash, runId, period, g, persist).0, t, hash, runId, tries)
    ensures var next := Retried(Begin(s, t, hash, runId, period, g, persist).0, t, hash, runId, tries);
      var stored := Made(runId, t, hash, period, RecordList(g.reconciliation.records), g.reconciliation);
      Find(next, runId) == Some(stored) && Find(Restarted(next), runId) == if IsWritten(persist) then Some(stored) else None
  {
    var begun := Begin(s, t, hash, runId, period, g, persist).0;
    RetriesKeep(t, hash, begun, runId, tries);
    BegunIsFound(t, hash, s, runId, period, g, persist);
    SameDiskSameRestart(begun, Retried(begun, t, hash, runId, tries), runId);
  }

  lemma SameDiskSameRestart(s: State, next: State, runId: string)
    requires s.disk == next.disk
    ensures Find(Restarted(s), runId) == Find(Restarted(next), runId)
  {
  }

  lemma BegunIsFound(t: Template, hash: Hash, s: State, runId: string, period: string, g: Gathered, persist: Persist)
    requires Find(s, runId) == None && Gated(g, t.required, period)
    ensures var begun := Begin(s, t, hash, runId, period, g, persist).0;
      var stored := Made(runId, t, hash, period, RecordList(g.reconciliation.records), g.reconciliation);
      Find(begun, runId) == Some(stored) && Find(Restarted(begun), runId) == if IsWritten(persist) then Some(stored) else None
  {
    var stored := Made(runId, t, hash, period, RecordList(g.reconciliation.records), g.reconciliation);
    assert Begin(s, t, hash, runId, period, g, persist).0 == Keep(s, runId, g.sources, stored, persist);
    KeptIsFound(s, runId, g.sources, stored, persist);
  }

  lemma KeptIsFound(s: State, runId: string, sources: Sources, stored: Stored, persist: Persist)
    requires Find(s, runId) == None
    ensures var kept := Keep(s, runId, sources, stored, persist);
      Find(kept, runId) == Some(stored) && Find(Restarted(kept), runId) == if IsWritten(persist) then Some(stored) else None
  {
  }

  /**
   A run that passed the gate, whatever it reported and after any tries that did not finish
   it, is completed by exactly the decisions that approve it; in a new process that also
   needs the checkpoint file to have been written.
   */
  lemma ApprovalCompletesIff(t: Template, hash: Hash, s: State, runId: string, period: string, g: Gathered, persist: Persist,
                             tries: seq<Try>, d: Decision, w: Circumstances)
    requires Find(s, runId) == None && Gated(g, t.required, period) && w.loads && w.recording == Recorded
    requires NoneFinished(Begin(s, t, hash, runId, period, g, persist).0, t, hash, runId, tries)
    ensures var next := Retried(Begin(s, t, hash, runId, period, g, persist).0, t, hash, runId, tries);
      var trusted := TrustedOf(runId, t, hash, period, RecordList(g.reconciliation.records), g.reconciliation);
      && (Resumed(next, t, hash, runId, d, w).1 == ResumeResult("completed", "") <==> ApprovesRun(g.sources, trusted, d))
      && (Resumed(Restarted(next), t, hash, runId, d, w).1 == ResumeResult("completed", "") <==>
           ApprovesRun(g.sources, trusted, d) && IsWritten(persist))
  {
    var next := Retried(Begin(s, t, hash, runId, period, g, persist).0, t, hash, runId, tries);
    FoundAfterTries(t, hash, s, runId, period, g, persist, tries);
    CompletedMeans(t, hash, next, runId, d, w);
    CompletedMeans(t, hash, Restarted(next), runId, d, w);
    MadeAcceptedIff(g.sources, t, hash, runId, period, d);
  }

  /**
   Whatever is in memory and on disk, a load whose decision carries the hash of some
   payload has that payload's period, and of that payload's records exactly those approved.
   */
  lemma LoadIsBoundToHash(t: Template, hash: Hash, s: State, runId: string, d: Decision, made: Payload, w: Circumstances)
    requires Injective(hash) && d.hash == hash(made)
    requires Accepts(t, hash, s, runId, d) && w.recording != RaisedBefore
    ensures var next := Resumed(s, t, hash, runId, d, w).0;
      && |next.log| > |s.log| && next.log[..|s.log|] == s.log
      && var e := next.log[|s.log|];
        && e.Loaded? && e.runId == runId == made.runId && e.period == made.period && e.succeeded == w.loads
        && IdSet(e.records) == Wanted(d.approved)
        && (forall r :: multiset(e.records)[r] == if HasApprovedId(r, d.approved) then multiset(made.records)[r] else 0)
  {
    var stored := Find(s, runId).value;
    ValidatedIsBound(runId, t, hash, stored, d, made);
    ApprovedInFull(stored.records, d.approved);
  }

  // ---------------------------------------------------------------- what one resume does

  /** Some stored record carries this text as its id. */
  ghost predicate HoldsId(records: seq<Record>, id: string) {
    exists r :: r in records && Get(r, PATENT_ID) == Str(id)
  }

  /** A decision is refused by the checkpoint's validation, or else because some approved id is not in the checkpoint. */
  lemma RefusalMeaning(runId: string, t: Template, hash: Hash, stored: Stored, d: Decision)
    ensures Refusal(runId, t, hash, stored, d) ==
      match Validate(runId, t, hash, stored, d)
      case Some(error) => Some(error)
      case None =>
        if forall id :: id in d.approved ==> HoldsId(stored.records, id) then None else Some("approved_records_not_in_checkpoint")
  {
    var found := IdSet(Approved(stored.records, d.approved));
    if forall id :: id in d.approved ==> HoldsId(stored.records, id) {
      forall v ensures v in found <==> v in Wanted(d.approved) {}
    }
    if found == Wanted(d.approved) {
      forall id | id in d.approved ensures HoldsId(stored.records, id) { assert Str(id) in Wanted(d.approved); }
    }
  }

  /** Nothing changes for the other runs. */
  ghost predicate OthersKept(s: State, next: State, runId: string) {
    forall id :: id != runId ==>
      && (id in next.memory <==> id in s.memory) && (id in s.memory ==> next.memory[id] == s.memory[id])
      && (id in next.disk <==> id in s.disk) && (id in s.disk ==> next.disk[id] == s.disk[id])
  }

  /** The checkpoint is in memory, and its file is as before. */
  ghost predicate Held(s: State, next: State, runId: string, stored: Stored) {
    && runId in next.memory && next.memory[runId] == stored
    && (runId in next.disk <==> runId in s.disk) && (runId in s.disk ==> next.disk[runId] == s.disk[runId])
  }

  /** The checkpoint is out of memory, and its file is gone if it could be deleted. */
  ghost predicate LetGo(s: State, next: State, runId: string, unlinked: bool) {
    && runId !in next.memory
    && (runId in next.disk <==> runId in s.disk && !unlinked) && (runId in next.disk ==> next.disk[runId] == s.disk[runId])
  }

  lemma NothingFound(t: Template, hash: Hash, s: State, runId: string, d: Decision, w: Circumstances)
    requires Find(s, runId) == None
    ensures Resumed(s, t, hash, runId, d, w) ==
      (s, if w.recording == RaisedBefore then ResumeResult("raised", "") else ResumeResult("blocked", "trusted_checkpoint_not_found"))
  {
  }

  /** A resume of a found checkpoint that calls no load. */
  lemma ResumeWithoutLoad(t: Template, hash: Hash, s: State, runId: string, d: Decision, w: Circumstances)
    requires Find(s, runId).Some?
    requires w.recording == RaisedBefore || d.action != "approve_load" || Refusal(runId, t, hash, Find(s, runId).value, d).Some?
    ensures var (next, r) := Resumed(s, t, hash, runId, d, w);
      && OthersKept(s, next, runId)
      && if w.recording == RaisedBefore then
           r == ResumeResult("raised", "") && next.log == s.log && Held(s, next, runId, Find(s, runId).value)
         else if d.action != "approve_load" then
           && r == ResumeResult("closed", d.action)
           && next.log == s.log + [Removed(runId, w.unlinked)] && LetGo(s, next, runId, w.unlinked)
         else
           && r == ResumeResult("blocked", Refusal(runId, t, hash, Find(s, runId).value, d).value)
           && next.log == s.log && Held(s, next, runId, Find(s, runId).value)
  {
  }

  /** A resume that calls the load: once, with the approved records in full, and what follows from how it goes. */
  lemma ResumeWithLoad(t: Template, hash: Hash, s: State, runId: string, d: Decision, w: Circumstances) returns (load: Event)
    requires Accepts(t, hash, s, runId, d) && w.recording != RaisedBefore
    ensures var stored := Find(s, runId).value;
      && load.Loaded? && load.runId == runId && load.decision == d && load.period == stored.period && load.succeeded == w.loads
      && LoadsInFull(load.records, stored.records, d.approved)
    ensures var (next, r) := Resumed(s, t, hash, runId, d, w);
      && OthersKept(s, next, runId)
      && if !w.loads then
           && r == ResumeResult("failed", "target_load_failed")
           && next.log == s.log + [load] && Held(s, next, runId, Find(s, runId).value)
         else if w.recording == RaisedAfterLoad then
           && r == ResumeResult("raised", "")
           && next.log == s.log + [load, Unrecorded(runId)] && Held(s, next, runId, Find(s, runId).value)
         else
           && r == ResumeResult("completed", "")
           && next.log == s.log + [load, Removed(runId, w.unlinked)] && LetGo(s, next, runId, w.unlinked)
  {
    var stored := Find(s, runId).value;
    load := Loaded(runId, d, stored.period, Approved(stored.records, d.approved), w.loads);
    ApprovedInFull(stored.records, d.approved);
    assert s.log + [load] + [Unrecorded(runId)] == s.log + [load, Unrecorded(runId)];
    assert s.log + [load] + [Removed(runId, w.unlinked)] == s.log + [load, Removed(runId, w.unlinked)];
  }
}
