/**
 The trusted checkpoint of a workflow run: its payload, its hash, its validation,
 and what a validated checkpoint is bound to.
 */
module Checkpoint {
  import opened Sequences
  import opened Sorting
  import opened Wrappers
  import opened Ordering
  import opened Reconcile

  datatype Template = Template(templateId: string, version: nat, workflowId: string, required: seq<string>)

  datatype Payload = Payload(schemaVersion: string, runId: string, workflowId: string, templateId: string, version: nat,
                             period: string, records: seq<Record>, reconciliation: Reconciliation)

  datatype Trusted = Trusted(schemaVersion: string, identity: string, hash: string, runId: string, workflowId: string,
                             templateId: string, version: nat, period: string, recordIds: seq<Val>)

  /** What the store keeps for a run; `trusted` is absent when the stored value is not an object. */
  datatype Stored = Stored(state: string, period: string, records: seq<Record>, reconciliation: Reconciliation,
                           trusted: Option<Trusted>)

  datatype Decision = Decision(action: string, approved: seq<string>, identity: string, hash: string)

  /** Canonical serialisation followed by the digest, kept abstract. */
  type Hash = Payload -> string

  const SCHEMA := "agent-runtime.workflow-checkpoint.v1"

  ghost predicate Injective(hash: Hash) {
    forall p, q {:trigger hash(p), hash(q)} :: hash(p) == hash(q) ==> p == q
  }

  // ---------------------------------------------------------------- the payload's record order

  /** The sort key: the patent id as text, or the empty text when there is none. */
  function Key(r: Record): string {
    if PATENT_ID in r then Text(r[PATENT_ID]) else ""
  }

  predicate KeyLess(a: Record, b: Record) {
    Less(Key(a), Key(b))
  }

  /** The records sorted by key; records with equal keys keep their order. */
  function SortRecords(records: seq<Record>): seq<Record> {
    Sort(KeyLess, records)
  }

  lemma KeyLessIsOrder()
    ensures IsOrder(KeyLess)
  {
    forall a: Record, b: Record | KeyLess(a, b) ensures !KeyLess(b, a) { LessTotal(Key(a), Key(b)); }
    forall a: Record, b: Record, c: Record {:trigger KeyLess(b, a), KeyLess(c, b)} | !KeyLess(b, a) && !KeyLess(c, b)
      ensures !KeyLess(c, a)
    {
      NotLessTransitive(Key(a), Key(b), Key(c));
    }
  }

  /** Sorting gives the same records in key order. */
  lemma SortRecordsMeaning(records: seq<Record>)
    ensures InOrder(KeyLess, SortRecords(records)) && multiset(SortRecords(records)) == multiset(records)
  {
    KeyLessIsOrder();
    SortMeaning(KeyLess, records);
  }

  ghost predicate DistinctKeys(records: seq<Record>) {
    forall i, j :: 0 <= i < j < |records| ==> Key(records[i]) != Key(records[j])
  }

  lemma IncreasingIff(records: seq<Record>)
    ensures Increasing(KeyLess, records) <==> InOrder(KeyLess, records) && DistinctKeys(records)
  {
    forall i, j | 0 <= i < j < |records|
      ensures KeyLess(records[i], records[j]) <==> !KeyLess(records[j], records[i]) && Key(records[i]) != Key(records[j])
    {
      LessTotal(Key(records[i]), Key(records[j]));
    }
  }

  lemma KeysOfPermutation(a: seq<Record>, b: seq<Record>)
    requires multiset(a) == multiset(b) && DistinctKeys(a)
    ensures DistinctKeys(b)
  {
    assert Distinct(a);
    DistinctPermutation(a, b);
    forall i, j | 0 <= i < j < |b| ensures Key(b[i]) != Key(b[j]) {
      assert b[i] in multiset(a) && b[j] in multiset(a);
    }
  }

  /** With distinct ids, the sorted records do not depend on the order they come in. */
  lemma SortIsCanonical(a: seq<Record>, b: seq<Record>)
    requires multiset(a) == multiset(b) && DistinctKeys(a)
    ensures SortRecords(a) == SortRecords(b)
  {
    KeyLessIsOrder();
    SortRecordsMeaning(a);
    SortRecordsMeaning(b);
    KeysOfPermutation(a, SortRecords(a));
    KeysOfPermutation(a, SortRecords(b));
    IncreasingIff(SortRecords(a));
    IncreasingIff(SortRecords(b));
    IncreasingUnique(KeyLess, SortRecords(a), SortRecords(b));
  }

  // ---------------------------------------------------------------- the checkpoint

  function PayloadOf(runId: string, t: Template, period: string, records: seq<Record>, reconciliation: Reconciliation): Payload {
    Payload(SCHEMA, runId, t.workflowId, t.templateId, t.version, period, SortRecords(records), reconciliation)
  }

  function Decimal(n: nat): string {
    if n < 10 then [n as char + '0'] else Decimal(n / 10) + [(n % 10) as char + '0']
  }

  function Identity(runId: string, t: Template, digest: string): string {
    t.templateId + ":" + Decimal(t.version) + ":" + runId + ":" + if |digest| < 16 then digest else digest[..16]
  }

  function Ids(records: seq<Record>): seq<Val> {
    seq(|records|, i requires 0 <= i < |records| => Get(records[i], PATENT_ID))
  }

  function TrustedOf(runId: string, t: Template, hash: Hash, period: string, records: seq<Record>,
                     reconciliation: Reconciliation): Trusted
  {
    var payload := PayloadOf(runId, t, period, records, reconciliation);
    var digest := hash(payload);
    Trusted(SCHEMA, Identity(runId, t, digest), digest, runId, t.workflowId, t.templateId, t.version, period, Ids(payload.records))
  }

  function Validate(runId: string, t: Template, hash: Hash, stored: Stored, d: Decision): Option<string> {
    if stored.state != "checkpoint_required" then Some("run_not_at_load_checkpoint")
    else if stored.trusted.None? then Some("trusted_checkpoint_missing")
    else if d.identity == "" || d.hash == "" then Some("trusted_checkpoint_identity_missing")
    else
      var trusted := stored.trusted.value;
      if d.identity != trusted.identity then Some("trusted_checkpoint_identity_mismatch")
      else if d.hash != trusted.hash then Some("trusted_checkpoint_hash_mismatch")
      else if trusted.runId != runId || trusted.schemaVersion != SCHEMA then Some("trusted_checkpoint_metadata_mismatch")
      else
        var expected := TrustedOf(runId, t, hash, stored.period, stored.records, stored.reconciliation);
        if expected.hash != trusted.hash then Some("trusted_checkpoint_hash_mismatch")
        else if expected.identity != trusted.identity then Some("trusted_checkpoint_identity_mismatch")
        else None
  }

  /** Whatever the store holds, a validated checkpoint has the content that was hashed when the approver's hash was made. */
  lemma ValidatedIsBound(runId: string, t: Template, hash: Hash, stored: Stored, d: Decision, made: Payload)
    requires Injective(hash) && d.hash == hash(made)
    requires Validate(runId, t, hash, stored, d) == None
    ensures made == Payload(SCHEMA, runId, t.workflowId, t.templateId, t.version, made.period, made.records, made.reconciliation)
    ensures stored.period == made.period && stored.reconciliation == made.reconciliation
    ensures SortRecords(stored.records) == made.records && multiset(stored.records) == multiset(made.records)
  {
    var payload := PayloadOf(runId, t, stored.period, stored.records, stored.reconciliation);
    assert hash(payload) == hash(made);
    SortRecordsMeaning(stored.records);
  }

  /** A checkpoint as the engine makes it. */
  function Made(runId: string, t: Template, hash: Hash, period: string, records: seq<Record>,
                reconciliation: Reconciliation): Stored
  {
    Stored("checkpoint_required", period, records, reconciliation, Some(TrustedOf(runId, t, hash, period, records, reconciliation)))
  }

  /** The engine's own checkpoint is approved exactly by echoing its identity and its hash. */
  lemma MadeValidates(runId: string, t: Template, hash: Hash, period: string, records: seq<Record>, reconciliation: Reconciliation,
                      d: Decision)
    ensures var stored := Made(runId, t, hash, period, records, reconciliation);
      Validate(runId, t, hash, stored, d) == None <==>
        d.hash != "" && d.hash == stored.trusted.value.hash && d.identity == stored.trusted.value.identity
  {
    assert t.templateId + ":" != "";
  }
}
