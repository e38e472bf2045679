/**
 What a checkpoint's identity distinguishes, which check refuses a decision, and what the
 trusted part of a checkpoint holds.
 */
module CheckpointLaws {
  import opened Wrappers
  import opened Reconcile
  import opened Checkpoint

  // ---------------------------------------------------------------- numbers as text

  /** The number that a text of digits stands for. */
  function ValueOf(digits: string): nat
    requires forall c :: c in digits ==> '0' <= c <= '9'
  {
    if digits == "" then 0
    else
      var k := |digits| - 1;
      assert digits[k] in digits && forall c :: c in digits[..k] ==> c in digits;
      10 * ValueOf(digits[..k]) + (digits[k] - '0') as nat
  }

  /** The text of a number is its decimal notation: digits that stand for it, without a leading zero. */
  lemma {:induction false} DecimalMeaning(n: nat)
    ensures Decimal(n) != "" && (forall c :: c in Decimal(n) ==> '0' <= c <= '9') && ValueOf(Decimal(n)) == n
    ensures n > 0 ==> Decimal(n)[0] != '0'
    decreases n
  {
    if n < 10 {
      var d := Decimal(n);
      assert d[..0] == "" && d[0] == n as char + '0';
    } else {
      DecimalMeaning(n / 10);
      var d := Decimal(n);
      assert d[..|d| - 1] == Decimal(n / 10) && d[|d| - 1] == (n % 10) as char + '0';
    }
  }

  lemma DecimalInjective(m: nat, n: nat)
    requires Decimal(m) == Decimal(n)
    ensures m == n
  {
    DecimalMeaning(m);
    DecimalMeaning(n);
  }

  // ---------------------------------------------------------------- identities

  predicate NoColon(s: string) {
    ':' !in s
  }

  /** A text without a colon in front of one is determined. */
  lemma SameUpToColon(a: string, x: string, b: string, y: string)
    requires NoColon(a) && NoColon(b) && a + ":" + x == b + ":" + y
    ensures a == b && x == y
  {
    var s := a + ":" + x;
    assert s[|a|] == ':' && s[|b|] == ':';
    assert forall i :: 0 <= i < |a| ==> s[i] == a[i] && a[i] in a;
    assert forall i :: 0 <= i < |b| ==> s[i] == b[i] && b[i] in b;
    assert |a| == |b|;
    assert a == s[..|a|] && b == s[..|b|];
    assert x == s[|a| + 1..] && y == s[|b| + 1..];
  }

  /** The first sixteen characters. */
  function FirstSixteen(s: string): string {
    if |s| > 16 then s[..16] else s
  }

  /** Identities distinguish template, version, run and the first sixteen characters of the hash, and nothing else. */
  lemma IdentityIff(r: string, t: Template, d: string, r': string, t': Template, d': string)
    requires NoColon(t.templateId) && NoColon(t'.templateId) && NoColon(r) && NoColon(r')
    ensures Identity(r, t, d) == Identity(r', t', d') <==>
      t.templateId == t'.templateId && t.version == t'.version && r == r' && FirstSixteen(d) == FirstSixteen(d')
  {
    IdentityParts(r, t, d);
    IdentityParts(r', t', d');
    if Identity(r, t, d) == Identity(r', t', d') {
      DecimalMeaning(t.version);
      DecimalMeaning(t'.version);
      SameUpToColon(t.templateId, Decimal(t.version) + ":" + (r + ":" + FirstSixteen(d)),
                    t'.templateId, Decimal(t'.version) + ":" + (r' + ":" + FirstSixteen(d')));
      SameUpToColon(Decimal(t.version), r + ":" + FirstSixteen(d), Decimal(t'.version), r' + ":" + FirstSixteen(d'));
      DecimalInjective(t.version, t'.version);
      SameUpToColon(r, FirstSixteen(d), r', FirstSixteen(d'));
    }
  }

  lemma IdentityParts(r: string, t: Template, d: string)
    ensures Identity(r, t, d) == t.templateId + ":" + (Decimal(t.version) + ":" + (r + ":" + FirstSixteen(d)))
  {
    if |d| == 16 { assert d[..16] == d; }
  }

  /** Records are ordered by their ids as texts; one without an id comes first. */
  lemma KeyMeaning(r: Record)
    ensures "patent_id" !in r ==> Key(r) == ""
    ensures "patent_id" in r && r["patent_id"].Str? ==> Key(r) == r["patent_id"].s
  {
  }

  // ---------------------------------------------------------------- validation

  /** The checks of a decision against a stored checkpoint, and what each one says. */
  ghost function Checks(runId: string, t: Template, hash: Hash, stored: Stored, d: Decision): seq<(bool, string)> {
    var trusted := if stored.trusted.Some? then stored.trusted.value else Trusted("", "", "", "", "", "", 0, "", []);
    var payload := Payload("agent-runtime.workflow-checkpoint.v1", runId, t.workflowId, t.templateId, t.version, stored.period,
                           SortRecords(stored.records), stored.reconciliation);
    [(stored.state == "checkpoint_required", "run_not_at_load_checkpoint"),
     (stored.trusted.Some?, "trusted_checkpoint_missing"),
     (d.identity != "" && d.hash != "", "trusted_checkpoint_identity_missing"),
     (d.identity == trusted.identity, "trusted_checkpoint_identity_mismatch"),
     (d.hash == trusted.hash, "trusted_checkpoint_hash_mismatch"),
     (trusted.runId == runId && trusted.schemaVersion == "agent-runtime.workflow-checkpoint.v1", "trusted_checkpoint_metadata_mismatch"),
     (hash(payload) == trusted.hash, "trusted_checkpoint_hash_mismatch"),
     (Identity(runId, t, hash(payload)) == trusted.identity, "trusted_checkpoint_identity_mismatch")]
  }

  /** The check at `i` is the first that fails. */
  ghost predicate FirstFailing(checks: seq<(bool, string)>, i: nat) {
    && i < |checks| && !checks[i].0
    && forall j :: 0 <= j < i ==> checks[j].0
  }

  /** A decision is accepted when all checks pass, and otherwise refused by the first that fails. */
  lemma ValidateMeaning(runId: string, t: Template, hash: Hash, stored: Stored, d: Decision)
    ensures var checks := Checks(runId, t, hash, stored, d);
      && (Validate(runId, t, hash, stored, d) == None <==> forall i :: 0 <= i < |checks| ==> checks[i].0)
      && forall i: nat :: FirstFailing(checks, i) ==> Validate(runId, t, hash, stored, d) == Some(checks[i].1)
  {
    var checks := Checks(runId, t, hash, stored, d);
    assert checks[0].0 && checks[1].0 && checks[2].0 && checks[3].0 && checks[4].0 && checks[5].0 && checks[6].0 && checks[7].0 <==>
      forall i :: 0 <= i < |checks| ==> checks[i].0;
  }

  // ---------------------------------------------------------------- the trusted part

  /** What the engine vouches for: the hash of the whole payload, its identity, and the ids of its records in their order. */
  lemma TrustedMeaning(runId: string, t: Template, hash: Hash, period: string, records: seq<Record>, reconciliation: Reconciliation)
    ensures var stored := Made(runId, t, hash, period, records, reconciliation);
      var payload := Payload("agent-runtime.workflow-checkpoint.v1", runId, t.workflowId, t.templateId, t.version, period,
                             SortRecords(records), reconciliation);
      && stored.state == "checkpoint_required" && stored.period == period && stored.records == records
      && stored.reconciliation == reconciliation && stored.trusted.Some?
      && var trusted := stored.trusted.value;
        && trusted.hash == hash(payload) && trusted.identity == Identity(runId, t, hash(payload))
        && trusted.schemaVersion == payload.schemaVersion && trusted.runId == runId && trusted.period == period
        && (trusted.workflowId, trusted.templateId, trusted.version) == (t.workflowId, t.templateId, t.version)
        && |trusted.recordIds| == |payload.records|
        && forall i :: 0 <= i < |payload.records| ==> trusted.recordIds[i] == Get(payload.records[i], PATENT_ID)
  {
    SortRecordsMeaning(records);
  }
}
