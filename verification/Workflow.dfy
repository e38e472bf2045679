/**
 The human-gated workflow engine: a run reconciles its sources and may stop at a
 checkpoint; a human decision resumes it and may load the approved records. The
 checkpoint is kept in memory and on disk.
 */
module Workflow {
  import opened Wrappers
  import opened Ordering
  import opened Reconcile
  import opened Checkpoint

  /** What a connector call gives: records, or an exception. */
  datatype Answer = Raised | Records(records: seq<Record>)

  type Enrich = (string, seq<Record>) -> Answer

  /** How writing the checkpoint file went; the last three raise. */
  datatype Persist = Written | NotWritten | PartlyWritten | WrittenThenRaised

  datatype File = Readable(stored: Stored) | Unreadable

  datatype Event =
    | Created(runId: string, sources: Sources, stored: Stored)
    | Loaded(runId: string, decision: Decision, period: string, records: seq<Record>, succeeded: bool)
    | Removed(runId: string, unlinked: bool)
    | Unrecorded(runId: string)

  /** The engine's memory, the run directory, and the log of what it did. */
  datatype State = State(memory: map<string, Stored>, disk: map<string, File>, log: seq<Event>)

  datatype RunResult = RunResult(state: string, reason: string, trusted: Option<Trusted>)

  datatype ResumeResult = ResumeResult(state: string, reason: string)

  /**
   How writing events, monitor status and audit records goes during a resume: a write may
   raise before anything is decided, or between a successful load and the removal of the
   checkpoint, and the exception then leaves the resume.
   */
  datatype Recording = Recorded | RaisedBefore | RaisedAfterLoad

  /** What a resume meets: does the target load, does recording raise, is the checkpoint file deleted. */
  datatype Circumstances = Circumstances(loads: bool, recording: Recording, unlinked: bool)

  // ---------------------------------------------------------------- starting a run

  datatype Gathered = Failed | Got(sources: Sources, reconciliation: Reconciliation)

  function TwoSources(a: seq<Record>, b: seq<Record>): Sources {
    map["A" := a, "B" := b]
  }

  function ThreeSources(a: seq<Record>, b: seq<Record>, c: seq<Record>): Sources {
    map["A" := a, "B" := b, "C" := c]
  }

  function RecordsAt(records: map<string, Record>, ids: seq<string>): seq<Record>
    requires Covers(records, ids)
  {
    seq(|ids|, i requires 0 <= i < |ids| => records[ids[i]])
  }

  lemma {:induction false} MissingAreRecords(results: map<string, IdResult>, ids: seq<string>, n: nat)
    requires n <= |ids| && Covers(results, ids)
    ensures Covers(Total(results, ids, n).records, Total(results, ids, n).missing)
    decreases n
  {
    if n == 0 {
    } else {
      MissingAreRecords(results, ids, n - 1);
    }
  }

  lemma MissingHaveRecords(sources: Sources, required: seq<string>, period: string)
    ensures Covers(Reconciled(sources, required, period).records, Reconciled(sources, required, period).missingRequired)
  {
    var grouped := Group(AllEntries(sources));
    SortedInKeys(grouped);
    MissingAreRecords(Results(grouped, required, period), Sorted(grouped.Keys), |Sorted(grouped.Keys)|);
  }

  /** The sources looked up, with C asked only when something required is missing. */
  function Gather(required: seq<string>, period: string, a: Answer, b: Answer, enrich: Enrich): (g: Gathered)
    ensures g.Got? ==> g.reconciliation == Reconciled(g.sources, required, period)
  {
    if a.Raised? || b.Raised? then Failed
    else
      var ab := TwoSources(a.records, b.records);
      var first := Reconciled(ab, required, period);
      if first.missingRequired == [] then Got(ab, first)
      else
        MissingHaveRecords(ab, required, period);
        match enrich(period, RecordsAt(first.records, first.missingRequired))
        case Raised => Failed
        case Records(c) =>
          var abc := ThreeSources(a.records, b.records, c);
          Got(abc, Reconciled(abc, required, period))
  }

  /** The reconciled records in id order. */
  function RecordList(records: map<string, Record>): seq<Record> {
    SortedInKeys(records);
    RecordsAt(records, Sorted(records.Keys))
  }

  function WriteFile(disk: map<string, File>, runId: string, stored: Stored, persist: Persist): map<string, File> {
    match persist
    case Written => disk[runId := Readable(stored)]
    case WrittenThenRaised => disk[runId := Readable(stored)]
    case PartlyWritten => disk[runId := Unreadable]
    case NotWritten => disk
  }

  function Begin(s: State, t: Template, hash: Hash, runId: string, period: string, g: Gathered, persist: Persist)
    : (State, RunResult)
  {
    match g
    case Failed => (s, RunResult("failed", "workflow_failed", None))
    case Got(sources, r) =>
      if !r.resolved then (s, RunResult("paused", "human_gate_unresolved", None))
      else if r.records == map[] then (s, RunResult("closed", "no_records_to_load", None))
      else
        var stored := Made(runId, t, hash, period, RecordList(r.records), r);
        (Keep(s, runId, sources, stored, persist),
         if persist == Written then RunResult("checkpoint_required", "explicit_checkpoint_required", stored.trusted)
         else RunResult("failed", "workflow_failed", None))
  }

  function Keep(s: State, runId: string, sources: Sources, stored: Stored, persist: Persist): State {
    State(s.memory[runId := stored], WriteFile(s.disk, runId, stored, persist), s.log + [Created(runId, sources, stored)])
  }

  // ---------------------------------------------------------------- resuming a run

  /** The checkpoint the engine finds: in memory, or else readable on disk. */
  function Find(s: State, runId: string): Option<Stored> {
    if runId in s.memory then Some(s.memory[runId])
    else if runId in s.disk && s.disk[runId].Readable? then Some(s.disk[runId].stored)
    else None
  }

  function Remember(s: State, runId: string, stored: Stored): State {
    s.(memory := s.memory[runId := stored])
  }

  function Forget(s: State, runId: string, unlinked: bool): State {
    State(s.memory - {runId}, if unlinked then s.disk - {runId} else s.disk, s.log + [Removed(runId, unlinked)])
  }

  function Approved(records: seq<Record>, ids: seq<string>): (r: seq<Record>)
    ensures forall x :: x in r <==> x in records && exists id :: id in ids && Get(x, PATENT_ID) == Str(id)
  {
    if records == [] then []
    else
      var last := |records| - 1;
      assert records == records[..last] + [records[last]];
      Approved(records[..last], ids)
      + if exists id :: id in ids && Get(records[last], PATENT_ID) == Str(id) then [records[last]] else []
  }

  function IdSet(records: seq<Record>): set<Val> {
    set r | r in records :: Get(r, PATENT_ID)
  }

  function Wanted(ids: seq<string>): set<Val> {
    set id | id in ids :: Str(id)
  }

  /** Why the decision is refused, if it is: the checkpoint's validation, then the approved ids. */
  function Refusal(runId: string, t: Template, hash: Hash, stored: Stored, d: Decision): Option<string> {
    match Validate(runId, t, hash, stored, d)
    case Some(error) => Some(error)
    case None =>
      if IdSet(Approved(stored.records, d.approved)) != Wanted(d.approved) then Some("approved_records_not_in_checkpoint") else None
  }

  function Attempt(s: State, runId: string, d: Decision, stored: Stored, succeeded: bool): State {
    s.(log := s.log + [Loaded(runId, d, stored.period, Approved(stored.records, d.approved), succeeded)])
  }

  /** After a successful load: the checkpoint is removed, unless recording the load raises first. */
  function Finish(s: State, runId: string, w: Circumstances): (State, ResumeResult) {
    if w.recording == RaisedAfterLoad then (s.(log := s.log + [Unrecorded(runId)]), ResumeResult("raised", ""))
    else (Forget(s, runId, w.unlinked), ResumeResult("completed", ""))
  }

  function Decide(s: State, runId: string, stored: Stored, d: Decision, refusal: Option<string>, w: Circumstances)
    : (State, ResumeResult)
  {
    if w.recording == RaisedBefore then (s, ResumeResult("raised", ""))
    else if d.action != "approve_load" then (Forget(s, runId, w.unlinked), ResumeResult("closed", d.action))
    else if refusal.Some? then (s, ResumeResult("blocked", refusal.value))
    else if !w.loads then (Attempt(s, runId, d, stored, false), ResumeResult("failed", "target_load_failed"))
    else Finish(Attempt(s, runId, d, stored, true), runId, w)
  }

  function Resumed(s: State, t: Template, hash: Hash, runId: string, d: Decision, w: Circumstances): (State, ResumeResult) {
    match Find(s, runId)
    case None =>
      (s, if w.recording == RaisedBefore then ResumeResult("raised", "")
          else ResumeResult("blocked", "trusted_checkpoint_not_found"))
    case Some(stored) =>
      Decide(Remember(s, runId, stored), runId, stored, d, Refusal(runId, t, hash, stored, d), w)
  }

  function Restarted(s: State): State {
    s.(memory := map[])
  }

  // ---------------------------------------------------------------- the engine

  method GatherSources(required: seq<string>, period: string, a: Answer, b: Answer, enrich: Enrich) returns (g: Gathered)
    ensures g == Gather(required, period, a, b, enrich)
  {
    if a.Raised? || b.Raised? { return Failed; }
    var sources := TwoSources(a.records, b.records);
    var reconciliation := Reconcile.Run(sources, required, period);
    if reconciliation.missingRequired != [] {
      MissingHaveRecords(sources, required, period);
      var answer := enrich(period, RecordsAt(reconciliation.records, reconciliation.missingRequired));
      if answer.Raised? { return Failed; }
      sources := ThreeSources(a.records, b.records, answer.records);
      reconciliation := Reconcile.Run(sources, required, period);
    }
    g := Got(sources, reconciliation);
  }

  class WorkflowEngine {
    const template: Template
    const hash: Hash
    var checkpointStore: map<string, Stored>
    var disk: map<string, File>
    ghost var log: seq<Event>

    constructor (template: Template, hash: Hash)
      ensures this.template == template && this.hash == hash && Now() == State(map[], map[], [])
    {
      this.template, this.hash := template, hash;
      checkpointStore, disk, log := map[], map[], [];
    }

    ghost function Now(): State
      reads this
    {
      State(checkpointStore, disk, log)
    }

    method PersistCheckpoint(runId: string, persist: Persist)
      modifies `disk
      ensures disk == if runId in checkpointStore then WriteFile(old(disk), runId, checkpointStore[runId], persist) else old(disk)
    {
      if runId !in checkpointStore { return; }
      match persist
      case Written => disk := disk[runId := Readable(checkpointStore[runId])];
      case WrittenThenRaised => disk := disk[runId := Readable(checkpointStore[runId])];
      case PartlyWritten => disk := disk[runId := Unreadable];
      case NotWritten =>
    }

    /** Decides between pausing, closing and asking for approval. */
    method OpenGate(runId: string, period: string, g: Gathered, persist: Persist) returns (r: RunResult)
      modifies this
      ensures (Now(), r) == Begin(old(Now()), template, hash, runId, period, g, persist)
    {
      if g.Failed? { return RunResult("failed", "workflow_failed", None); }
      if !g.reconciliation.resolved { return RunResult("paused", "human_gate_unresolved", None); }
      if g.reconciliation.records == map[] { return RunResult("closed", "no_records_to_load", None); }
      var stored := Made(runId, template, hash, period, RecordList(g.reconciliation.records), g.reconciliation);
      StoreCheckpoint(runId, g.sources, stored, persist);
      if persist != Written { return RunResult("failed", "workflow_failed", None); }
      r := RunResult("checkpoint_required", "explicit_checkpoint_required", stored.trusted);
    }

    method StoreCheckpoint(runId: string, ghost sources: Sources, stored: Stored, persist: Persist)
      modifies this
      ensures Now() == Keep(old(Now()), runId, sources, stored, persist)
    {
      checkpointStore := checkpointStore[runId := stored];
      PersistCheckpoint(runId, persist);
      log := log + [Created(runId, sources, stored)];
    }

    method RunPatentAssetReplacement(runId: string, period: string, a: Answer, b: Answer, enrich: Enrich, persist: Persist)
      returns (r: RunResult)
      modifies this
      ensures (Now(), r) == Begin(old(Now()), template, hash, runId, period,
                                  Gather(template.required, period, a, b, enrich), persist)
    {
      var g := GatherSources(template.required, period, a, b, enrich);
      r := OpenGate(runId, period, g, persist);
    }

    method Remove(runId: string, unlinked: bool)
      modifies this
      ensures Now() == Forget(old(Now()), runId, unlinked)
    {
      checkpointStore := checkpointStore - {runId};
      if unlinked { disk := disk - {runId}; }
      log := log + [Removed(runId, unlinked)];
    }

    method ResumeWithHumanDecision(runId: string, d: Decision, w: Circumstances) returns (r: ResumeResult)
      modifies this
      ensures (Now(), r) == Resumed(old(Now()), template, hash, runId, d, w)
    {
      var found := if runId in checkpointStore then Some(checkpointStore[runId])
                   else if runId in disk && disk[runId].Readable? then Some(disk[runId].stored) else None;
      if found.Some? { checkpointStore := checkpointStore[runId := found.value]; }
      if w.recording == RaisedBefore { return ResumeResult("raised", ""); }
      if found.None? { return ResumeResult("blocked", "trusted_checkpoint_not_found"); }
      var stored := found.value;
      if d.action != "approve_load" {
        Remove(runId, w.unlinked);
        return ResumeResult("closed", d.action);
      }
      var error := Validate(runId, template, hash, stored, d);
      if error.Some? { return ResumeResult("blocked", error.value); }
      var records := Approved(stored.records, d.approved);
      if IdSet(records) != Wanted(d.approved) { return ResumeResult("blocked", "approved_records_not_in_checkpoint"); }
      log := log + [Loaded(runId, d, stored.period, records, w.loads)];
      if !w.loads { return ResumeResult("failed", "target_load_failed"); }
      if w.recording == RaisedAfterLoad {
        log := log + [Unrecorded(runId)];
        return ResumeResult("raised", "");
      }
      Remove(runId, w.unlinked);
      r := ResumeResult("completed", "");
    }

    /** A new process over the same run directory. */
    method Restart()
      modifies `checkpointStore
      ensures Now() == Restarted(old(Now()))
    {
      checkpointStore := map[];
    }
  }
}
