/**
 What an inspection sees, which statements it calls for, and what a run does and reports, on
 the account itself.
 */
module ProvisioningReport {
  import opened Sorting
  import opened Wrappers
  import opened Ordering
  import opened Provisioning
  import opened ProvisioningLaws

  // ---------------------------------------------------------------- lists made of sorted names

  lemma EachMeaning<T(!new)>(names: set<string>, make: string -> T)
    ensures |Each(names, make)| == |names|
    ensures forall x :: x in Each(names, make) <==> exists n :: n in names && x == make(n)
  {
    var sorted := Sorted(names);
    forall x ensures x in Each(names, make) <==> exists n :: n in names && x == make(n) {
      if x in Each(names, make) {
        var i :| 0 <= i < |sorted| && Each(names, make)[i] == x;
        assert sorted[i] in names;
      }
      if n :| n in names && x == make(n) {
        assert n in sorted;
        var i :| 0 <= i < |sorted| && sorted[i] == n;
        assert Each(names, make)[i] == x;
      }
    }
  }

  /** The list is in order when the order of the items is that of their names. */
  lemma EachInOrder<T(!new)>(names: set<string>, make: string -> T, less: Comparison<T>)
    requires forall a, b :: Less(a, b) ==> less(make(a), make(b))
    ensures Increasing(less, Each(names, make))
  {
    forall i, j | 0 <= i < j < |names| ensures less(Each(names, make)[i], Each(names, make)[j]) {
      assert Less(Sorted(names)[i], Sorted(names)[j]);
    }
  }

  // ---------------------------------------------------------------- the statements

  /** The order in which statements are applied: by kind, then by name. */
  function Rank(st: Statement): (nat, string) {
    match st
    case CreateUser => (0, "")
    case Unlock => (0, "")
    case GrantPrivilege(n) => (1, n)
    case GrantRole(n) => (2, n)
    case DefaultRoleAll => (3, "")
    case GrantSelect(n) => (4, n)
    case CreateSynonym(n) => (5, n)
  }

  predicate StatementLess(a: Statement, b: Statement) {
    Rank(a).0 < Rank(b).0 || (Rank(a).0 == Rank(b).0 && Less(Rank(a).1, Rank(b).1))
  }

  /** The statement is called for by what the inspection found. */
  predicate CalledFor(s: AccountState, st: Statement) {
    match st
    case CreateUser => s.status == None
    case Unlock => s.status.Some? && s.status != Some("OPEN")
    case GrantPrivilege(n) => n in s.missingPrivileges
    case GrantRole(n) => n in s.missingRoles
    case DefaultRoleAll => "DWROLE" in s.missingRoles
    case GrantSelect(n) => n in s.missingTables
    case CreateSynonym(n) => n in s.missingSynonyms
  }

  /** The statements called for up to this kind, each once and in order. */
  ghost predicate CalledUpTo(s: AccountState, statements: seq<Statement>, kind: nat) {
    && Increasing(StatementLess, statements)
    && forall st :: st in statements <==> CalledFor(s, st) && Rank(st).0 <= kind
  }

  lemma MoreCalled(s: AccountState, statements: seq<Statement>, kind: nat, more: seq<Statement>)
    requires CalledUpTo(s, statements, kind) && Increasing(StatementLess, more)
    requires forall st :: st in more <==> CalledFor(s, st) && Rank(st).0 == kind + 1
    ensures CalledUpTo(s, statements + more, kind + 1)
  {
    forall x, y | x in statements && y in more ensures StatementLess(x, y) {}
    IncreasingConcat(StatementLess, statements, more);
  }

  lemma PrivilegesCalled(s: AccountState)
    ensures Increasing(StatementLess, Each(s.missingPrivileges, ForPrivilege))
    ensures forall st :: st in Each(s.missingPrivileges, ForPrivilege) <==> CalledFor(s, st) && Rank(st).0 == 1
  {
    EachMeaning(s.missingPrivileges, ForPrivilege);
    EachInOrder(s.missingPrivileges, ForPrivilege, StatementLess);
  }

  lemma RolesCalled(s: AccountState)
    ensures Increasing(StatementLess, Each(s.missingRoles, ForRole))
    ensures forall st :: st in Each(s.missingRoles, ForRole) <==> CalledFor(s, st) && Rank(st).0 == 2
  {
    EachMeaning(s.missingRoles, ForRole);
    EachInOrder(s.missingRoles, ForRole, StatementLess);
  }

  lemma TablesCalled(s: AccountState)
    ensures Increasing(StatementLess, Each(s.missingTables, ForTable))
    ensures forall st :: st in Each(s.missingTables, ForTable) <==> CalledFor(s, st) && Rank(st).0 == 4
  {
    EachMeaning(s.missingTables, ForTable);
    EachInOrder(s.missingTables, ForTable, StatementLess);
  }

  lemma SynonymsCalled(s: AccountState)
    ensures Increasing(StatementLess, Each(s.missingSynonyms, ForSynonym))
    ensures forall st :: st in Each(s.missingSynonyms, ForSynonym) <==> CalledFor(s, st) && Rank(st).0 == 5
  {
    EachMeaning(s.missingSynonyms, ForSynonym);
    EachInOrder(s.missingSynonyms, ForSynonym, StatementLess);
  }

  lemma OpeningCalled(s: AccountState)
    ensures CalledUpTo(s, Opening(s), 0)
  {
  }

  lemma DefaultRoleCalled(s: AccountState)
    ensures Increasing(StatementLess, DefaultRole(s))
    ensures forall st :: st in DefaultRole(s) <==> CalledFor(s, st) && Rank(st).0 == 3
  {
  }

  /** Opening and the grants to the account as a whole. */
  function AccountStatements(s: AccountState): seq<Statement> {
    Opening(s) + Each(s.missingPrivileges, ForPrivilege) + Each(s.missingRoles, ForRole) + DefaultRole(s)
  }

  lemma AccountStatementsCalled(s: AccountState)
    ensures CalledUpTo(s, AccountStatements(s), 3)
  {
    var s1 := Opening(s) + Each(s.missingPrivileges, ForPrivilege);
    OpeningCalled(s);
    PrivilegesCalled(s);
    MoreCalled(s, Opening(s), 0, Each(s.missingPrivileges, ForPrivilege));
    RolesCalled(s);
    MoreCalled(s, s1, 1, Each(s.missingRoles, ForRole));
    DefaultRoleCalled(s);
    MoreCalled(s, s1 + Each(s.missingRoles, ForRole), 2, DefaultRole(s));
  }

  lemma StatementsAre(s: AccountState)
    ensures Statements(s) == AccountStatements(s) + Each(s.missingTables, ForTable) + Each(s.missingSynonyms, ForSynonym)
  {
    Regroup(Opening(s), Each(s.missingPrivileges, ForPrivilege), Each(s.missingRoles, ForRole), DefaultRole(s),
            Each(s.missingTables, ForTable), Each(s.missingSynonyms, ForSynonym));
  }

  lemma Regroup(o: seq<Statement>, p: seq<Statement>, r: seq<Statement>, d: seq<Statement>, t: seq<Statement>, y: seq<Statement>)
    ensures o + (p + r + d + t + y) == o + p + r + d + t + y
  {
  }

  lemma KindsEnd(st: Statement)
    ensures Rank(st).0 <= 5
  {
  }

  lemma AllCalled(s: AccountState)
    ensures CalledUpTo(s, Statements(s), 5)
  {
    AccountStatementsCalled(s);
    TablesCalled(s);
    MoreCalled(s, AccountStatements(s), 3, Each(s.missingTables, ForTable));
    SynonymsCalled(s);
    MoreCalled(s, AccountStatements(s) + Each(s.missingTables, ForTable), 4, Each(s.missingSynonyms, ForSynonym));
    StatementsAre(s);
  }

  /** The statements are exactly those called for, each once: opening, privileges, roles, default role, tables, synonyms, by name. */
  lemma StatementsMeaning(s: AccountState)
    ensures Increasing(StatementLess, Statements(s)) && forall st :: st in Statements(s) <==> CalledFor(s, st)
  {
    AllCalled(s);
    forall st ensures st in Statements(s) <==> CalledFor(s, st) { KindsEnd(st); }
  }

  // ---------------------------------------------------------------- what an inspection sees

  function DriftRank(d: Drift): (nat, string) {
    match d
    case UnexpectedSynonym(n) => (0, n)
    case UnexpectedRole(n) => (1, n)
    case UnexpectedPrivilege(n) => (2, n)
  }

  predicate DriftLess(a: Drift, b: Drift) {
    DriftRank(a).0 < DriftRank(b).0 || (DriftRank(a).0 == DriftRank(b).0 && Less(DriftRank(a).1, DriftRank(b).1))
  }

  /** The account has something the profile rejects. */
  predicate Drifts(a: Account, q: Requirements, d: Drift) {
    a.Present? &&
    match d
    case UnexpectedSynonym(n) => n in q.synonyms && n in a.synonyms && a.synonyms[n] != Target("SH", n)
    case UnexpectedRole(n) => n in a.roles && n in q.driftRoles
    case UnexpectedPrivilege(n) => n in a.privileges && n in q.driftPrivileges
  }

  lemma {:induction false} SynonymDriftsAre(rows: Rows, q: Requirements, names: seq<string>)
    requires StrictlySorted(names)
    ensures Increasing(DriftLess, SynonymDrifts(rows, q, names))
    ensures forall d :: d in SynonymDrifts(rows, q, names) <==> d.UnexpectedSynonym? && d.name in names && Astray(rows, q, d.name)
    decreases |names|
  {
    if names == [] {
    } else {
      var k := |names| - 1;
      SynonymDriftsAre(rows, q, names[..k]);
      assert names == names[..k] + [names[k]];
      if Astray(rows, q, names[k]) {
        forall x, y | x in SynonymDrifts(rows, q, names[..k]) && y in [SynonymDrift(names[k])] ensures DriftLess(x, y) {
          var i :| 0 <= i < k && names[..k][i] == x.name;
          assert Less(names[i], names[k]);
        }
        IncreasingConcat(DriftLess, SynonymDrifts(rows, q, names[..k]), [SynonymDrift(names[k])]);
      }
    }
  }

  lemma RoleDrifts(names: set<string>)
    ensures Increasing(DriftLess, Each(names, RoleDrift))
    ensures forall d :: d in Each(names, RoleDrift) <==> d.UnexpectedRole? && d.name in names
  {
    EachMeaning(names, RoleDrift);
    EachInOrder(names, RoleDrift, DriftLess);
  }

  lemma PrivilegeDrifts(names: set<string>)
    ensures Increasing(DriftLess, Each(names, PrivilegeDrift))
    ensures forall d :: d in Each(names, PrivilegeDrift) <==> d.UnexpectedPrivilege? && d.name in names
  {
    EachMeaning(names, PrivilegeDrift);
    EachInOrder(names, PrivilegeDrift, DriftLess);
  }

  lemma DriftsAre(rows: Rows, q: Requirements)
    ensures var drifts := Provisioning.Drifts(rows, q);
      && Increasing(DriftLess, drifts)
      && forall d :: d in drifts <==>
           || (d.UnexpectedSynonym? && d.name in rows.synonyms && Astray(rows, q, d.name))
           || (d.UnexpectedRole? && d.name in rows.roles * q.driftRoles)
           || (d.UnexpectedPrivilege? && d.name in rows.privileges * q.driftPrivileges)
  {
    var synonyms := SynonymDrifts(rows, q, Sorted(rows.synonyms.Keys));
    var roles, privileges := Each(rows.roles * q.driftRoles, RoleDrift), Each(rows.privileges * q.driftPrivileges, PrivilegeDrift);
    SynonymDriftsAre(rows, q, Sorted(rows.synonyms.Keys));
    RoleDrifts(rows.roles * q.driftRoles);
    PrivilegeDrifts(rows.privileges * q.driftPrivileges);
    IncreasingConcat(DriftLess, synonyms, roles);
    IncreasingConcat(DriftLess, synonyms + roles, privileges);
  }

  /** An inspection sees the drifts of the account, each once: synonyms, roles and privileges, by name. */
  lemma DriftMeaning(a: Account, q: Requirements)
    ensures Increasing(DriftLess, Seen(a, q).drift) && forall d :: d in Seen(a, q).drift <==> Drifts(a, q, d)
  {
    var rows := Inspected(a, q);
    DriftsAre(rows, q);
    if a.Present? {
      forall n ensures n in rows.synonyms && Astray(rows, q, n) <==>
        n in q.synonyms && n in a.synonyms && a.synonyms[n] != Target("SH", n) {}
    }
  }

  /** And exactly what it lacks of what the profile requires. */
  lemma MissingMeaning(a: Account, q: Requirements)
    ensures var s := Seen(a, q);
      && (s.observed <==> a.Present?)
      && s.status == (if a.Absent? then None else Some(a.status))
      && (forall n :: n in s.missingRoles <==> n in q.roles && (a.Absent? || n !in a.roles))
      && (forall n :: n in s.missingPrivileges <==> n in q.privileges && (a.Absent? || n !in a.privileges))
      && (forall n :: n in s.missingTables <==> n in q.tables && (a.Absent? || Grant("SELECT", "SH", n) !in a.grants))
      && (forall n :: n in s.missingSynonyms <==>
           n in q.synonyms && (a.Absent? || n !in a.synonyms || a.synonyms[n] != Target("SH", n)))
  {
  }

  // ---------------------------------------------------------------- what a run does and reports

  /** The account after the first `n` statements. */
  function After(a: Account, statements: seq<Statement>, n: nat, unlock: Unlocking): Account {
    ApplyAll(a, if n <= |statements| then statements[..n] else statements, unlock)
  }

  ghost predicate Reported(r: Result, status: string, phase: string, actions: seq<Statement>, classification: string) {
    r.status == status && r.phase == phase && r.actions == actions && r.verdict.classification == classification
  }

  /**
   A run, step by step: a failed inspection, a drifted account and a ready one are left alone;
   otherwise the statements called for are applied, as far as the session reaches, and the
   account is inspected again.
   */
  lemma RunMeaning(a: Account, q: Requirements, unlock: Unlocking, sessions: Sessions)
    requires Consistent(q)
    ensures var (after, r) := Provisioned(a, q, unlock, sessions);
      var statements := Statements(Seen(a, q));
      if sessions.pre != "completed" then after == a && Reported(r, sessions.pre, "precheck", [], "failed")
      else if !Clean(a, q) then after == a && Reported(r, "rejected_drift", "precheck", [], "rejected_drift")
      else if Ready(a, q) then after == a && Reported(r, "completed", "precheck", [], "already_compliant")
      else if sessions.apply != "completed" then
        after == After(a, statements, sessions.reach, unlock) && Reported(r, sessions.apply, "apply", statements, "failed")
      else
        && after == ApplyAll(a, statements, unlock)
        && r.verdict.pre == Seen(a, q) && r.verdict.post == Seen(after, q)
        && Reported(r, sessions.post, "postcheck", statements,
                    if sessions.post != "completed" then "failed"
                    else if !Ready(after, q) then "failed_incomplete"
                    else if a.Absent? then "created" else "granted_missing_privileges")
  {
    if sessions.pre != "completed" || !Clean(a, q) || Ready(a, q) {
      PrecheckReport(a, q, unlock, sessions);
    } else {
      PrecheckLeadsToApply(a, q, unlock, sessions);
      if sessions.apply == "completed" {
        AppliedRunReport(a, q, unlock, sessions);
      } else {
        InterruptedRunReport(a, q, unlock, sessions);
      }
    }
  }

  lemma PrecheckReport(a: Account, q: Requirements, unlock: Unlocking, sessions: Sessions)
    requires sessions.pre != "completed" || !Clean(a, q) || Ready(a, q)
    ensures var (after, r) := Provisioned(a, q, unlock, sessions);
      && after == a
      && if sessions.pre != "completed" then Reported(r, sessions.pre, "precheck", [], "failed")
         else if !Clean(a, q) then Reported(r, "rejected_drift", "precheck", [], "rejected_drift")
         else Reported(r, "completed", "precheck", [], "already_compliant")
  {
    SeenDescribes(a, q);
    NoDriftIff(a, q);
    CompliantIff(a, q);
  }

  lemma InterruptedRunReport(a: Account, q: Requirements, unlock: Unlocking, sessions: Sessions)
    requires sessions.apply != "completed"
    ensures var (after, r) := Applied(a, q, unlock, sessions, Seen(a, q));
      var statements := Statements(Seen(a, q));
      after == After(a, statements, sessions.reach, unlock) && Reported(r, sessions.apply, "apply", statements, "failed")
  {
    ExecutedAre(Statements(Seen(a, q)), sessions);
  }

  lemma ExecutedAre(statements: seq<Statement>, sessions: Sessions)
    requires sessions.apply != "completed"
    ensures Executed(statements, sessions) == if sessions.reach <= |statements| then statements[..sessions.reach] else statements
  {
    if sessions.reach == |statements| { assert statements[..sessions.reach] == statements; }
  }

  lemma AppliedRunReport(a: Account, q: Requirements, unlock: Unlocking, sessions: Sessions)
    requires Consistent(q) && Clean(a, q) && !Ready(a, q) && sessions.apply == "completed"
    ensures var (after, r) := Applied(a, q, unlock, sessions, Seen(a, q));
      var statements := Statements(Seen(a, q));
      && after == ApplyAll(a, statements, unlock)
      && r.verdict.pre == Seen(a, q) && r.verdict.post == Seen(after, q)
      && Reported(r, sessions.post, "postcheck", statements,
                  if sessions.post != "completed" then "failed"
                  else if !Ready(after, q) then "failed_incomplete"
                  else if a.Absent? then "created" else "granted_missing_privileges")
  {
    var after := ApplyAll(a, Statements(Seen(a, q)), unlock);
    SeenDescribes(a, q);
    StatementsEffect(a, Seen(a, q), unlock);
    BroughtIsClean(a, q, unlock);
    NoDriftIff(after, q);
    CompliantIff(after, q);
    CompliantIff(a, q);
    MissingMeaning(a, q);
    MissingMeaning(after, q);
  }

  /** Only creation makes an account: without it, every statement leaves an absent account absent. */
  lemma {:induction false} AbsentUntilCreated(a: Account, statements: seq<Statement>, unlock: Unlocking)
    ensures ApplyAll(a, statements, unlock).Absent? <==> a.Absent? && CreateUser !in statements
    decreases |statements|
  {
    if statements != [] {
      var k := |statements| - 1;
      AbsentUntilCreated(a, statements[..k], unlock);
      assert statements == statements[..k] + [statements[k]];
    }
  }

  // ---------------------------------------------------------------- the grant profiles

  predicate SampleTable(n: string) {
    n == "CHANNELS" || n == "CUSTOMERS" || n == "PRODUCTS" || n == "SALES" || n == "TIMES"
  }

  predicate Administers(role: string) {
    role == "DBA" || role == "PDB_DBA" || role == "RESOURCE"
  }

  /** A system privilege that changes data or structure. */
  predicate Writes(privilege: string) {
    || privilege == "ALTER ANY TABLE" || privilege == "CREATE ANY TABLE" || privilege == "CREATE TABLE"
    || privilege == "DELETE ANY TABLE" || privilege == "DROP ANY TABLE"
    || privilege == "INSERT ANY TABLE" || privilege == "UPDATE ANY TABLE"
  }

  /** The synonym names the sample table of its own name. */
  predicate Home(a: Account, n: string)
    requires a.Present?
  {
    n in a.synonyms && a.synonyms[n] == Target("SH", n)
  }

  /** When an account is ready for a profile: what each profile asks for, item by item. */
  lemma ReadyForProfile(a: Account, profile: string)
    ensures Ready(a, ForProfile(profile)) <==>
      && a.Present? && a.status == "OPEN" && "CREATE SESSION" in a.privileges
      && (profile == "prototype-any-table-read" ==> "DWROLE" in a.roles && "SELECT ANY TABLE" in a.privileges)
      && (profile == "production-sh-read" ==> forall n | SampleTable(n) :: Grant("SELECT", "SH", n) in a.grants)
      && (profile == "prototype-any-table-read" || profile == "production-sh-read" ==> forall n | SampleTable(n) :: Home(a, n))
  {
    forall n ensures SampleTable(n) <==> n in SH_TABLES {}
  }

  /** When it has nothing the profile rejects. */
  lemma CleanForProfile(a: Account, profile: string)
    ensures Clean(a, ForProfile(profile)) <==> (a.Present? ==>
      && (forall r | r in a.roles :: !Administers(r) && (profile == "production-sh-read" ==> r != "DWROLE"))
      && (forall p | p in a.privileges :: !Writes(p) && (profile == "production-sh-read" ==> p != "SELECT ANY TABLE"))
      && (profile == "prototype-any-table-read" || profile == "production-sh-read" ==>
            forall n | SampleTable(n) && n in a.synonyms :: Home(a, n)))
  {
    var q := ForProfile(profile);
    forall n ensures SampleTable(n) <==> n in SH_TABLES {}
    forall r ensures Administers(r) <==> r in DRIFT_ROLES {}
    forall p ensures Writes(p) <==> p in DRIFT_PRIVILEGES {}
  }
}
