/**
 Provisioning converges, is idempotent, leaves a drifted account alone, and never takes
 anything away.
 */
module ProvisioningLaws {
  import opened Sequences
  import opened Wrappers
  import opened Ordering
  import opened Provisioning

  // ---------------------------------------------------------------- what the verdicts should mean

  /** The account has nothing that the profile rejects. */
  ghost predicate Clean(a: Account, q: Requirements) {
    a.Present? ==>
      && a.roles !! q.driftRoles
      && a.privileges !! q.driftPrivileges
      && forall n :: n in a.synonyms && n in q.synonyms ==> a.synonyms[n] == Target("SH", n)
  }

  /** The account is open and has everything the profile requires. */
  ghost predicate Ready(a: Account, q: Requirements) {
    && a.Present? && a.status == "OPEN"
    && q.roles <= a.roles
    && q.privileges <= a.privileges
    && (forall t :: t in q.tables ==> Grant("SELECT", "SH", t) in a.grants)
    && (forall n :: n in q.synonyms ==> n in a.synonyms && a.synonyms[n] == Target("SH", n))
  }

  /** The account can be opened by unlocking it, if it is not open or absent already. */
  predicate CanOpen(a: Account, unlock: Unlocking) {
    a.Absent? || a.status == "OPEN" || unlock(a.status) == "OPEN"
  }

  function Seen(a: Account, q: Requirements): AccountState {
    StateOf(Inspected(a, q), q)
  }

  lemma {:induction false} SynonymDriftsEmptyIff(rows: Rows, q: Requirements, names: seq<string>)
    ensures SynonymDrifts(rows, q, names) == [] <==> forall n :: n in names ==> !Astray(rows, q, n)
    decreases |names|
  {
    if names == [] {
    } else {
      var k := |names| - 1;
      SynonymDriftsEmptyIff(rows, q, names[..k]);
      assert names == names[..k] + [names[k]];
    }
  }

  lemma EachEmptyIff(have: set<string>, bad: set<string>, make: string -> Drift)
    ensures Each(have * bad, make) == [] <==> have !! bad
  {
    var both := have * bad;
    if have !! bad {
      assert both == {};
      assert |Each(both, make)| == 0;
    } else {
      var x :| x in have && x in bad;
      assert x in both && |both| > 0;
      assert |Each(both, make)| > 0;
    }
  }

  lemma DriftsEmptyIff(rows: Rows, q: Requirements)
    ensures Drifts(rows, q) == [] <==>
      && (forall n :: n in rows.synonyms ==> !Astray(rows, q, n))
      && rows.roles !! q.driftRoles && rows.privileges !! q.driftPrivileges
  {
    SynonymDriftsEmptyIff(rows, q, Sorted(rows.synonyms.Keys));
    EachEmptyIff(rows.roles, q.driftRoles, RoleDrift);
    EachEmptyIff(rows.privileges, q.driftPrivileges, PrivilegeDrift);
  }

  lemma InspectedSynonyms(a: Account, q: Requirements, n: string)
    requires a.Present? && n in q.synonyms
    ensures PointsHome(Inspected(a, q), n) <==> n in a.synonyms && a.synonyms[n] == Target("SH", n)
    ensures n in Inspected(a, q).synonyms <==> n in a.synonyms
  {
  }

  /** An inspection finds no drift exactly when the account has nothing the profile rejects. */
  lemma NoDriftIff(a: Account, q: Requirements)
    ensures Seen(a, q).drift == [] <==> Clean(a, q)
  {
    var rows := Inspected(a, q);
    DriftsEmptyIff(rows, q);
    if a.Present? {
      forall n | n in q.synonyms
        ensures PointsHome(rows, n) <==> n in a.synonyms && a.synonyms[n] == Target("SH", n)
        ensures n in rows.synonyms <==> n in a.synonyms
      {
        InspectedSynonyms(a, q, n);
      }
      assert rows.roles !! q.driftRoles <==> a.roles !! q.driftRoles;
      assert rows.privileges !! q.driftPrivileges <==> a.privileges !! q.driftPrivileges;
    }
  }

  lemma NothingMissingIff(a: Account, q: Requirements)
    requires a.Present?
    ensures Seen(a, q).missingRoles == q.roles - a.roles
    ensures Seen(a, q).missingPrivileges == q.privileges - a.privileges
  {
    OnlyAsked(a.roles, q.roles, q.driftRoles);
    OnlyAsked(a.privileges, q.privileges, q.driftPrivileges);
  }

  lemma OnlyAsked(have: set<string>, required: set<string>, bad: set<string>)
    ensures required - have * (required + bad) == required - have
  {
  }

  lemma NothingLeft(required: set<string>, have: set<string>)
    ensures required - have == {} <==> required <= have
  {
    if required - have == {} {
      forall x | x in required ensures x in have { assert x !in required - have; }
    }
  }

  lemma NoTableMissingIff(a: Account, q: Requirements)
    requires a.Present?
    ensures forall t :: t in Seen(a, q).missingTables <==> t in q.tables && Grant("SELECT", "SH", t) !in a.grants
  {
    forall t | t in q.tables ensures Grant("SELECT", "SH", t) in Inspected(a, q).grants <==> Grant("SELECT", "SH", t) in a.grants {
      var g := Grant("SELECT", "SH", t);
    }
  }

  lemma NoSynonymMissingIff(a: Account, q: Requirements)
    requires a.Present?
    ensures forall n :: n in Seen(a, q).missingSynonyms <==>
      n in q.synonyms && !(n in a.synonyms && a.synonyms[n] == Target("SH", n))
  {
    forall n | n in q.synonyms
      ensures PointsHome(Inspected(a, q), n) <==> n in a.synonyms && a.synonyms[n] == Target("SH", n)
    {
      InspectedSynonyms(a, q, n);
    }
  }

  /** An inspection finds the account compliant exactly when it is open and has everything required. */
  lemma CompliantIff(a: Account, q: Requirements)
    ensures Seen(a, q).Compliant() <==> Ready(a, q)
  {
    if a.Present? {
      NothingMissingIff(a, q);
      NothingLeft(q.roles, a.roles);
      NothingLeft(q.privileges, a.privileges);
      NoTableMissingIff(a, q);
      NoSynonymMissingIff(a, q);
    }
  }

  // ---------------------------------------------------------------- the effect of the statements

  lemma {:induction false} ApplyConcat(a: Account, x: seq<Statement>, y: seq<Statement>, unlock: Unlocking)
    ensures ApplyAll(a, x + y, unlock) == ApplyAll(ApplyAll(a, x, unlock), y, unlock)
    decreases |y|
  {
    if y == [] {
      assert x + y == x;
    } else {
      var k := |y| - 1;
      ApplyConcat(a, x, y[..k], unlock);
      assert (x + y)[..|x + y| - 1] == x + y[..k];
    }
  }

  lemma LabelStep(a: Account, names: seq<string>, make: string -> Statement, unlock: Unlocking)
    requires names != []
    ensures var k := |names| - 1;
      && ApplyAll(a, Label(names, make), unlock) == Apply(ApplyAll(a, Label(names[..k], make), unlock), make(names[k]), unlock)
      && Elements(names) == Elements(names[..k]) + {names[k]}
  {
    var k := |names| - 1;
    assert Label(names, make)[..k] == Label(names[..k], make);
    assert names == names[..k] + [names[k]];
  }

  lemma PrivilegeStep(a: Account, done: set<string>, n: string, unlock: Unlocking)
    requires a.Present?
    ensures Apply(a.(privileges := a.privileges + done), GrantPrivilege(n), unlock) == a.(privileges := a.privileges + (done + {n}))
  {
    assert a.privileges + done + {n} == a.privileges + (done + {n});
  }

  lemma {:induction false} ApplyPrivileges(a: Account, names: seq<string>, unlock: Unlocking)
    requires a.Present?
    ensures ApplyAll(a, Label(names, ForPrivilege), unlock) == a.(privileges := a.privileges + Elements(names))
    decreases |names|
  {
    if names == [] {
      assert a.privileges + Elements(names) == a.privileges;
    } else {
      var k := |names| - 1;
      ApplyPrivileges(a, names[..k], unlock);
      LabelStep(a, names, ForPrivilege, unlock);
      PrivilegeStep(a, Elements(names[..k]), names[k], unlock);
    }
  }

  lemma RoleStep(a: Account, done: set<string>, n: string, unlock: Unlocking)
    requires a.Present?
    ensures Apply(a.(roles := a.roles + done), GrantRole(n), unlock) == a.(roles := a.roles + (done + {n}))
  {
    assert a.roles + done + {n} == a.roles + (done + {n});
  }

  lemma {:induction false} ApplyRoles(a: Account, names: seq<string>, unlock: Unlocking)
    requires a.Present?
    ensures ApplyAll(a, Label(names, ForRole), unlock) == a.(roles := a.roles + Elements(names))
    decreases |names|
  {
    if names == [] {
      assert a.roles + Elements(names) == a.roles;
    } else {
      var k := |names| - 1;
      ApplyRoles(a, names[..k], unlock);
      LabelStep(a, names, ForRole, unlock);
      RoleStep(a, Elements(names[..k]), names[k], unlock);
    }
  }

  function SelectGrants(tables: set<string>): set<Grant> {
    set t | t in tables :: Grant("SELECT", "SH", t)
  }

  lemma TableStep(a: Account, done: set<string>, n: string, unlock: Unlocking)
    requires a.Present?
    ensures Apply(a.(grants := a.grants + SelectGrants(done)), GrantSelect(n), unlock) ==
      a.(grants := a.grants + SelectGrants(done + {n}))
  {
    assert SelectGrants(done + {n}) == SelectGrants(done) + {Grant("SELECT", "SH", n)};
    assert a.grants + SelectGrants(done) + {Grant("SELECT", "SH", n)} == a.grants + SelectGrants(done + {n});
  }

  lemma {:induction false} ApplyTables(a: Account, names: seq<string>, unlock: Unlocking)
    requires a.Present?
    ensures ApplyAll(a, Label(names, ForTable), unlock) == a.(grants := a.grants + SelectGrants(Elements(names)))
    decreases |names|
  {
    if names == [] {
      assert a.grants + SelectGrants(Elements(names)) == a.grants;
    } else {
      var k := |names| - 1;
      ApplyTables(a, names[..k], unlock);
      LabelStep(a, names, ForTable, unlock);
      TableStep(a, Elements(names[..k]), names[k], unlock);
    }
  }

  function Home(synonyms: map<string, Target>, names: set<string>): map<string, Target> {
    map n | n in synonyms.Keys + names :: if n in names then Target("SH", n) else synonyms[n]
  }

  lemma SynonymStep(a: Account, done: set<string>, n: string, unlock: Unlocking)
    requires a.Present?
    ensures Apply(a.(synonyms := Home(a.synonyms, done)), CreateSynonym(n), unlock) == a.(synonyms := Home(a.synonyms, done + {n}))
  {
    assert Home(a.synonyms, done)[n := Target("SH", n)] == Home(a.synonyms, done + {n});
  }

  lemma {:induction false} ApplySynonyms(a: Account, names: seq<string>, unlock: Unlocking)
    requires a.Present?
    ensures ApplyAll(a, Label(names, ForSynonym), unlock) == a.(synonyms := Home(a.synonyms, Elements(names)))
    decreases |names|
  {
    if names == [] {
      assert Home(a.synonyms, Elements(names)) == a.synonyms;
    } else {
      var k := |names| - 1;
      ApplySynonyms(a, names[..k], unlock);
      LabelStep(a, names, ForSynonym, unlock);
      SynonymStep(a, Elements(names[..k]), names[k], unlock);
    }
  }

  /** The account after the opening statement. */
  function Opened(a: Account, unlock: Unlocking): Account {
    match a
    case Absent => Present("OPEN", {}, {}, {}, map[])
    case Present(status, _, _, _, _) => if status == "OPEN" then a else a.(status := unlock(status))
  }

  /** The account after all statements: opened, and with everything missing added. */
  function Brought(a: Account, s: AccountState, unlock: Unlocking): Account {
    var o := Opened(a, unlock);
    Present(o.status, o.roles + s.missingRoles, o.privileges + s.missingPrivileges,
            o.grants + SelectGrants(s.missingTables), Home(o.synonyms, s.missingSynonyms))
  }

  /** What an inspection records of the account's existence and status. */
  ghost predicate Describes(s: AccountState, a: Account) {
    s.status == match a case Absent => None case Present(status, _, _, _, _) => Some(status)
  }

  lemma OpeningEffect(a: Account, s: AccountState, unlock: Unlocking)
    requires Describes(s, a)
    ensures ApplyAll(a, Opening(s), unlock) == Opened(a, unlock)
  {
    var o := Opening(s);
    if o != [] { assert o[..0] == []; }
  }

  lemma DefaultRoleEffect(a: Account, s: AccountState, unlock: Unlocking)
    requires a.Present?
    ensures ApplyAll(a, DefaultRole(s), unlock) == a
  {
    var d := DefaultRole(s);
    if d != [] { assert d[..0] == []; }
  }

  lemma SortedElements(names: set<string>)
    ensures Elements(Sorted(names)) == names
  {
  }

  lemma GrantsEffect(a: Account, s: AccountState, unlock: Unlocking)
    requires a.Present?
    ensures ApplyAll(a, Each(s.missingPrivileges, ForPrivilege), unlock) == a.(privileges := a.privileges + s.missingPrivileges)
    ensures ApplyAll(a, Each(s.missingRoles, ForRole), unlock) == a.(roles := a.roles + s.missingRoles)
    ensures ApplyAll(a, Each(s.missingTables, ForTable), unlock) == a.(grants := a.grants + SelectGrants(s.missingTables))
    ensures ApplyAll(a, Each(s.missingSynonyms, ForSynonym), unlock) == a.(synonyms := Home(a.synonyms, s.missingSynonyms))
  {
    SortedElements(s.missingPrivileges);
    SortedElements(s.missingRoles);
    SortedElements(s.missingTables);
    SortedElements(s.missingSynonyms);
    ApplyPrivileges(a, Sorted(s.missingPrivileges), unlock);
    ApplyRoles(a, Sorted(s.missingRoles), unlock);
    ApplyTables(a, Sorted(s.missingTables), unlock);
    ApplySynonyms(a, Sorted(s.missingSynonyms), unlock);
  }

  lemma AllGrantsEffect(a: Account, s: AccountState, unlock: Unlocking)
    requires a.Present?
    ensures ApplyAll(a, Grants(s), unlock) ==
      Present(a.status, a.roles + s.missingRoles, a.privileges + s.missingPrivileges,
              a.grants + SelectGrants(s.missingTables), Home(a.synonyms, s.missingSynonyms))
  {
    var s2 := Each(s.missingPrivileges, ForPrivilege);
    var s3 := s2 + Each(s.missingRoles, ForRole);
    var s4 := s3 + DefaultRole(s);
    var s5 := s4 + Each(s.missingTables, ForTable);
    GrantsEffect(a, s, unlock);
    var a2 := a.(privileges := a.privileges + s.missingPrivileges);
    ApplyConcat(a, s2, Each(s.missingRoles, ForRole), unlock);
    GrantsEffect(a2, s, unlock);
    var a3 := a2.(roles := a2.roles + s.missingRoles);
    ApplyConcat(a, s3, DefaultRole(s), unlock);
    DefaultRoleEffect(a3, s, unlock);
    ApplyConcat(a, s4, Each(s.missingTables, ForTable), unlock);
    GrantsEffect(a3, s, unlock);
    var a5 := a3.(grants := a3.grants + SelectGrants(s.missingTables));
    ApplyConcat(a, s5, Each(s.missingSynonyms, ForSynonym), unlock);
    GrantsEffect(a5, s, unlock);
  }

  /** Applying the computed statements opens the account and adds everything that was missing. */
  lemma StatementsEffect(a: Account, s: AccountState, unlock: Unlocking)
    requires Describes(s, a)
    ensures ApplyAll(a, Statements(s), unlock) == Brought(a, s, unlock)
  {
    OpeningEffect(a, s, unlock);
    ApplyConcat(a, Opening(s), Grants(s), unlock);
    AllGrantsEffect(Opened(a, unlock), s, unlock);
  }

  // ---------------------------------------------------------------- the account after provisioning

  lemma BroughtRoles(a: Account, q: Requirements, unlock: Unlocking)
    ensures var b := Brought(a, Seen(a, q), unlock);
      && q.roles <= b.roles && q.privileges <= b.privileges
      && b.roles <= Opened(a, unlock).roles + q.roles && b.privileges <= Opened(a, unlock).privileges + q.privileges
  {
    if a.Present? { NothingMissingIff(a, q); }
  }

  lemma BroughtTables(a: Account, q: Requirements, unlock: Unlocking)
    ensures var b := Brought(a, Seen(a, q), unlock);
      forall t :: t in q.tables ==> Grant("SELECT", "SH", t) in b.grants
  {
    if a.Present? { NoTableMissingIff(a, q); }
  }

  lemma HomeCovers(synonyms: map<string, Target>, required: set<string>, missing: set<string>)
    requires forall n :: n in required && n !in missing ==> n in synonyms && synonyms[n] == Target("SH", n)
    ensures forall n :: n in required ==> n in Home(synonyms, missing) && Home(synonyms, missing)[n] == Target("SH", n)
  {
  }

  lemma BroughtSynonyms(a: Account, q: Requirements, unlock: Unlocking)
    ensures var b := Brought(a, Seen(a, q), unlock);
      forall n :: n in q.synonyms ==> n in b.synonyms && b.synonyms[n] == Target("SH", n)
  {
    if a.Present? { NoSynonymMissingIff(a, q); }
    HomeCovers(Opened(a, unlock).synonyms, q.synonyms, Seen(a, q).missingSynonyms);
  }

  /** The account has everything required; only its status is open. */
  ghost predicate Granted(b: Account, q: Requirements) {
    && b.Present?
    && q.roles <= b.roles && q.privileges <= b.privileges
    && (forall t :: t in q.tables ==> Grant("SELECT", "SH", t) in b.grants)
    && (forall n :: n in q.synonyms ==> n in b.synonyms && b.synonyms[n] == Target("SH", n))
  }

  lemma BroughtIsGranted(a: Account, q: Requirements, unlock: Unlocking)
    ensures Granted(Brought(a, Seen(a, q), unlock), q)
  {
    BroughtRoles(a, q, unlock);
    BroughtTables(a, q, unlock);
    BroughtSynonyms(a, q, unlock);
  }

  lemma GrantedIsReadyIff(b: Account, q: Requirements)
    requires Granted(b, q)
    ensures Ready(b, q) <==> b.status == "OPEN"
  {
  }

  lemma BroughtStatus(a: Account, s: AccountState, unlock: Unlocking)
    ensures Brought(a, s, unlock).status == "OPEN" <==> CanOpen(a, unlock)
  {
  }

  /** With all statements applied, only the status can keep the account from being ready. */
  lemma BroughtIsReadyIff(a: Account, q: Requirements, unlock: Unlocking)
    ensures Ready(Brought(a, Seen(a, q), unlock), q) <==> CanOpen(a, unlock)
  {
    BroughtIsGranted(a, q, unlock);
    GrantedIsReadyIff(Brought(a, Seen(a, q), unlock), q);
    BroughtStatus(a, Seen(a, q), unlock);
  }

  lemma BroughtIsClean(a: Account, q: Requirements, unlock: Unlocking)
    requires Clean(a, q) && Consistent(q)
    ensures Clean(Brought(a, Seen(a, q), unlock), q)
  {
    BroughtRoles(a, q, unlock);
    BroughtSynonyms(a, q, unlock);
  }

  /** An account that is not compliant always has something to apply. */
  lemma SomethingToApply(s: AccountState)
    requires !s.Compliant()
    ensures Statements(s) != []
  {
    assert |Statements(s)| >= |Opening(s)| + |s.missingPrivileges| + |s.missingRoles| + |s.missingTables| + |s.missingSynonyms|;
  }

  // ---------------------------------------------------------------- what a run does and reports

  ghost predicate AllComplete(sessions: Sessions) {
    sessions.pre == "completed" && sessions.apply == "completed" && sessions.post == "completed"
  }

  lemma SeenDescribes(a: Account, q: Requirements)
    ensures Describes(Seen(a, q), a)
    ensures Seen(a, q).observed <==> a.Present?
    ensures !StateOf(NO_ROWS, q).observed
  {
  }

  /** A drifted account is reported and left exactly as it is. */
  lemma DriftAppliesNothing(a: Account, q: Requirements, unlock: Unlocking, sessions: Sessions)
    requires !Clean(a, q)
    ensures var (after, r) := Provisioned(a, q, unlock, sessions);
      && after == a && r.actions == [] && !Succeeds(r.verdict)
      && (sessions.pre == "completed" ==> r.status == r.verdict.classification == "rejected_drift")
  {
    NoDriftIff(a, q);
    SeenDescribes(a, q);
    JudgedDrift(Seen(a, q), StateOf(NO_ROWS, q));
    if sessions.pre != "completed" { IncompleteFails(sessions.pre, Seen(a, q), StateOf(NO_ROWS, q)); }
  }

  lemma JudgedDrift(pre: AccountState, none: AccountState)
    requires pre.drift != [] && !none.observed
    ensures var v := Judge("completed", pre, none);
      v.classification == "rejected_drift" && !Succeeds(v)
  {
  }

  /** An account that already has everything is reported compliant and left exactly as it is. */
  lemma ReadyAppliesNothing(a: Account, q: Requirements, unlock: Unlocking, sessions: Sessions)
    requires Clean(a, q) && Ready(a, q) && sessions.pre == "completed"
    ensures var (after, r) := Provisioned(a, q, unlock, sessions);
      && after == a && r.actions == [] && r.status == "completed"
      && r.verdict.classification == "already_compliant" && Succeeds(r.verdict)
  {
    NoDriftIff(a, q);
    CompliantIff(a, q);
    SeenDescribes(a, q);
    JudgedReady(Seen(a, q), StateOf(NO_ROWS, q));
  }

  lemma JudgedReady(pre: AccountState, none: AccountState)
    requires pre.drift == [] && pre.Compliant() && !none.observed
    ensures var v := Judge("completed", pre, none);
      v.classification == "already_compliant" && Succeeds(v)
  {
  }

  /** The branch for "nothing to apply" is never taken: a run that is not compliant and not drifted applies something. */
  lemma NoStatementsIsUnreachable(a: Account, q: Requirements)
    requires Clean(a, q) && Judge("completed", Seen(a, q), StateOf(NO_ROWS, q)).classification != "already_compliant"
    ensures Statements(Seen(a, q)) != [] && !Ready(a, q)
  {
    NoDriftIff(a, q);
    CompliantIff(a, q);
    SeenDescribes(a, q);
    SomethingToApply(Seen(a, q));
  }

  lemma PrecheckPasses(a: Account, q: Requirements)
    requires Clean(a, q) && !Ready(a, q)
    ensures Judge("completed", Seen(a, q), StateOf(NO_ROWS, q)).classification == "granted_missing_privileges"
    ensures Statements(Seen(a, q)) != []
  {
    NoDriftIff(a, q);
    CompliantIff(a, q);
    SeenDescribes(a, q);
    SomethingToApply(Seen(a, q));
  }

  lemma PrecheckLeadsToApply(a: Account, q: Requirements, unlock: Unlocking, sessions: Sessions)
    requires Clean(a, q) && !Ready(a, q) && sessions.pre == "completed"
    ensures Provisioned(a, q, unlock, sessions) == Applied(a, q, unlock, sessions, Seen(a, q))
  {
    PrecheckPasses(a, q);
  }

  lemma AppliedRun(a: Account, q: Requirements, unlock: Unlocking, sessions: Sessions)
    requires Clean(a, q) && !Ready(a, q) && AllComplete(sessions)
    ensures var (after, r) := Provisioned(a, q, unlock, sessions);
      && after == Brought(a, Seen(a, q), unlock)
      && r == Result("completed", "postcheck", Judge("completed", Seen(a, q), Seen(after, q)), Statements(Seen(a, q)))
  {
    PrecheckLeadsToApply(a, q, unlock, sessions);
    SeenDescribes(a, q);
    AppliedCompletely(a, q, unlock, sessions, Seen(a, q));
  }

  lemma AppliedCompletely(a: Account, q: Requirements, unlock: Unlocking, sessions: Sessions, pre: AccountState)
    requires AllComplete(sessions) && Describes(pre, a)
    ensures var (after, r) := Applied(a, q, unlock, sessions, pre);
      && after == Brought(a, pre, unlock)
      && r == Result("completed", "postcheck", Judge("completed", pre, Seen(after, q)), Statements(pre))
  {
    StatementsEffect(a, pre, unlock);
  }

  lemma JudgedAfter(pre: AccountState, post: AccountState)
    requires post.observed && post.drift == [] && !pre.Compliant()
    ensures var v := Judge("completed", pre, post);
      && v.classification == (if !post.Compliant() then "failed_incomplete"
                              else if !pre.Exists() then "created" else "granted_missing_privileges")
      && (Succeeds(v) <==> post.Compliant())
  {
  }

  /**
   Convergence: from an account without drift, a run whose sessions complete reports success exactly
   when the account ends up ready, and that happens exactly when unlocking can open it.
   */
  lemma Converges(a: Account, q: Requirements, unlock: Unlocking, sessions: Sessions)
    requires Consistent(q) && Clean(a, q) && AllComplete(sessions)
    ensures var (after, r) := Provisioned(a, q, unlock, sessions);
      && (Succeeds(r.verdict) <==> Ready(after, q))
      && (Ready(after, q) <==> CanOpen(a, unlock))
      && Clean(after, q)
      && r.verdict.classification == (if Ready(a, q) then "already_compliant" else if !CanOpen(a, unlock) then "failed_incomplete"
                                      else if a.Absent? then "created" else "granted_missing_privileges")
  {
    if Ready(a, q) {
      ReadyAppliesNothing(a, q, unlock, sessions);
    } else {
      AppliedRun(a, q, unlock, sessions);
      BroughtIsReadyIff(a, q, unlock);
      BroughtIsClean(a, q, unlock);
      JudgedBrought(a, Brought(a, Seen(a, q), unlock), q);
    }
  }

  lemma JudgedBrought(a: Account, after: Account, q: Requirements)
    requires after.Present? && Clean(after, q) && !Ready(a, q)
    ensures var v := Judge("completed", Seen(a, q), Seen(after, q));
      && v.classification == (if !Ready(after, q) then "failed_incomplete"
                              else if a.Absent? then "created" else "granted_missing_privileges")
      && (Succeeds(v) <==> Ready(after, q))
  {
    NoDriftIff(after, q);
    CompliantIff(a, q);
    CompliantIff(after, q);
    SeenDescribes(a, q);
    SeenDescribes(after, q);
    JudgedAfter(Seen(a, q), Seen(after, q));
  }

  /** A second run over the result finds it compliant and changes nothing. */
  lemma SecondRunDoesNothing(a: Account, q: Requirements, unlock: Unlocking, sessions: Sessions, again: Sessions)
    requires Consistent(q) && Clean(a, q) && AllComplete(sessions) && CanOpen(a, unlock) && again.pre == "completed"
    ensures var after := Provisioned(a, q, unlock, sessions).0;
      var (final, r) := Provisioned(after, q, unlock, again);
      && final == after && r.actions == [] && r.verdict.classification == "already_compliant"
  {
    Converges(a, q, unlock, sessions);
    ReadyAppliesNothing(Provisioned(a, q, unlock, sessions).0, q, unlock, again);
  }

  // ---------------------------------------------------------------- nothing is taken away

  /** Everything `a` had is still there, and everything new is something the profile requires. */
  ghost predicate Extends(a: Account, b: Account, q: Requirements) {
    && (a.Present? ==>
         && b.Present?
         && a.roles <= b.roles && a.privileges <= b.privileges && a.grants <= b.grants
         && forall n :: n in a.synonyms ==> n in b.synonyms && b.synonyms[n] == a.synonyms[n])
    && (b.Present? ==>
         && (forall r :: r in b.roles ==> r in q.roles || (a.Present? && r in a.roles))
         && (forall p :: p in b.privileges ==> p in q.privileges || (a.Present? && p in a.privileges))
         && (forall g :: g in b.grants ==>
               (g == Grant("SELECT", "SH", g.table) && g.table in q.tables) || (a.Present? && g in a.grants))
         && (forall n :: n in b.synonyms ==>
               (n in q.synonyms && b.synonyms[n] == Target("SH", n)) || (a.Present? && n in a.synonyms)))
  }

  /** A statement that cannot take anything away from `a` nor add more than the profile. */
  ghost predicate Harmless(st: Statement, a: Account, q: Requirements) {
    match st
    case GrantPrivilege(p) => p in q.privileges
    case GrantRole(r) => r in q.roles
    case GrantSelect(t) => t in q.tables
    case CreateSynonym(n) => n in q.synonyms && (a.Present? && n in a.synonyms ==> a.synonyms[n] == Target("SH", n))
    case CreateUser => true
    case Unlock => true
    case DefaultRoleAll => true
  }

  lemma HarmlessExtends(a: Account, b: Account, st: Statement, q: Requirements, unlock: Unlocking)
    requires Extends(a, b, q) && Harmless(st, a, q)
    ensures Extends(a, Apply(b, st, unlock), q)
  {
  }

  ghost predicate AllHarmless(statements: seq<Statement>, a: Account, q: Requirements) {
    forall st :: st in statements ==> Harmless(st, a, q)
  }

  lemma {:induction false} HarmlessAllExtends(a: Account, statements: seq<Statement>, q: Requirements, unlock: Unlocking)
    requires AllHarmless(statements, a, q)
    ensures Extends(a, ApplyAll(a, statements, unlock), q)
    decreases |statements|
  {
    if statements == [] {
    } else {
      var k := |statements| - 1;
      assert statements == statements[..k] + [statements[k]];
      assert statements[k] in statements;
      HarmlessAllExtends(a, statements[..k], q, unlock);
      HarmlessExtends(a, ApplyAll(a, statements[..k], unlock), statements[k], q, unlock);
    }
  }

  lemma EachMembers(names: set<string>, make: string -> Statement, st: Statement)
    requires st in Each(names, make)
    ensures exists n :: n in names && st == make(n)
  {
    var i :| 0 <= i < |names| && Each(names, make)[i] == st;
    assert Sorted(names)[i] in Sorted(names);
  }

  lemma HarmlessConcat(x: seq<Statement>, y: seq<Statement>, a: Account, q: Requirements)
    requires AllHarmless(x, a, q) && AllHarmless(y, a, q)
    ensures AllHarmless(x + y, a, q)
  {
  }

  lemma HarmlessEach(names: set<string>, make: string -> Statement, a: Account, q: Requirements)
    requires forall n :: n in names ==> Harmless(make(n), a, q)
    ensures AllHarmless(Each(names, make), a, q)
  {
    forall st | st in Each(names, make) ensures Harmless(st, a, q) { EachMembers(names, make, st); }
  }

  lemma MissingIsRequired(a: Account, q: Requirements)
    requires Clean(a, q)
    ensures var s := Seen(a, q);
      && s.missingPrivileges <= q.privileges && s.missingRoles <= q.roles && s.missingTables <= q.tables
      && forall n :: n in s.missingSynonyms ==> Harmless(ForSynonym(n), a, q)
  {
    if a.Present? { NoSynonymMissingIff(a, q); }
  }

  lemma StatementsAreHarmless(a: Account, q: Requirements)
    requires Clean(a, q)
    ensures AllHarmless(Statements(Seen(a, q)), a, q)
  {
    MissingIsRequired(a, q);
    GroupsAreHarmless(Seen(a, q), a, q);
    StatementsFromGroups(Seen(a, q), a, q);
  }

  lemma GroupsAreHarmless(s: AccountState, a: Account, q: Requirements)
    requires s.missingPrivileges <= q.privileges && s.missingRoles <= q.roles && s.missingTables <= q.tables
    requires forall n :: n in s.missingSynonyms ==> Harmless(ForSynonym(n), a, q)
    ensures AllHarmless(Grants(s), a, q)
  {
    var s2 := Each(s.missingPrivileges, ForPrivilege);
    var s3 := s2 + Each(s.missingRoles, ForRole);
    var s4 := s3 + DefaultRole(s);
    HarmlessEach(s.missingPrivileges, ForPrivilege, a, q);
    HarmlessAppend(s2, s.missingRoles, ForRole, a, q);
    HarmlessConcat(s3, DefaultRole(s), a, q);
    HarmlessAppend(s4, s.missingTables, ForTable, a, q);
    HarmlessAppend(s4 + Each(s.missingTables, ForTable), s.missingSynonyms, ForSynonym, a, q);
  }

  lemma StatementsFromGroups(s: AccountState, a: Account, q: Requirements)
    requires AllHarmless(Grants(s), a, q)
    ensures AllHarmless(Statements(s), a, q)
  {
    HarmlessConcat(Opening(s), Grants(s), a, q);
  }

  lemma HarmlessAppend(x: seq<Statement>, names: set<string>, make: string -> Statement, a: Account, q: Requirements)
    requires AllHarmless(x, a, q) && forall n :: n in names ==> Harmless(make(n), a, q)
    ensures AllHarmless(x + Each(names, make), a, q)
  {
    HarmlessEach(names, make, a, q);
    HarmlessConcat(x, Each(names, make), a, q);
  }

  /** However the sessions end, no grant is removed, no synonym is retargeted and nothing outside the profile is added. */
  lemma NothingIsTakenAway(a: Account, q: Requirements, unlock: Unlocking, sessions: Sessions)
    ensures Extends(a, Provisioned(a, q, unlock, sessions).0, q)
  {
    if !Clean(a, q) {
      DriftAppliesNothing(a, q, unlock, sessions);
    } else if sessions.pre == "completed" {
      if Ready(a, q) {
        ReadyAppliesNothing(a, q, unlock, sessions);
      } else {
        PrecheckLeadsToApply(a, q, unlock, sessions);
        AppliedExtends(a, q, unlock, sessions);
      }
    }
  }

  lemma AppliedExtends(a: Account, q: Requirements, unlock: Unlocking, sessions: Sessions)
    requires Clean(a, q)
    ensures Extends(a, Applied(a, q, unlock, sessions, Seen(a, q)).0, q)
  {
    StatementsAreHarmless(a, q);
    ExecutedAreHarmless(Statements(Seen(a, q)), sessions, a, q);
    HarmlessAllExtends(a, Executed(Statements(Seen(a, q)), sessions), q, unlock);
  }

  lemma ExecutedAreHarmless(statements: seq<Statement>, sessions: Sessions, a: Account, q: Requirements)
    requires AllHarmless(statements, a, q)
    ensures AllHarmless(Executed(statements, sessions), a, q)
  {
  }

  /** However the sessions end, a reported success means the account is ready and has no drift. */
  lemma SuccessIsReal(a: Account, q: Requirements, unlock: Unlocking, sessions: Sessions)
    requires Consistent(q) && Succeeds(Provisioned(a, q, unlock, sessions).1.verdict)
    ensures Ready(Provisioned(a, q, unlock, sessions).0, q) && Clean(a, q)
  {
    if !Clean(a, q) {
      DriftAppliesNothing(a, q, unlock, sessions);
    } else if Ready(a, q) {
      NotReadyWithoutPrecheck(a, q, unlock, sessions);
    } else {
      OnlyAllComplete(a, q, unlock, sessions);
      Converges(a, q, unlock, sessions);
    }
  }

  lemma NotReadyWithoutPrecheck(a: Account, q: Requirements, unlock: Unlocking, sessions: Sessions)
    requires Clean(a, q) && Ready(a, q)
    ensures Provisioned(a, q, unlock, sessions).0 == a
  {
    if sessions.pre == "completed" { ReadyAppliesNothing(a, q, unlock, sessions); }
  }

  lemma IncompleteFails(status: string, pre: AccountState, post: AccountState)
    requires status != "completed"
    ensures !Succeeds(Judge(status, pre, post))
  {
  }

  lemma AppliedStatus(a: Account, q: Requirements, unlock: Unlocking, sessions: Sessions, pre: AccountState)
    requires Succeeds(Applied(a, q, unlock, sessions, pre).1.verdict)
    ensures sessions.apply == "completed" && sessions.post == "completed"
  {
    var none := StateOf(NO_ROWS, q);
    if sessions.apply != "completed" {
      IncompleteFails(sessions.apply, none, none);
    } else if sessions.post != "completed" {
      IncompleteFails(sessions.post, pre, Seen(Applied(a, q, unlock, sessions, pre).0, q));
    }
  }

  lemma OnlyAllComplete(a: Account, q: Requirements, unlock: Unlocking, sessions: Sessions)
    requires Clean(a, q) && !Ready(a, q) && Succeeds(Provisioned(a, q, unlock, sessions).1.verdict)
    ensures AllComplete(sessions)
  {
    if sessions.pre != "completed" {
      IncompleteFails(sessions.pre, Seen(a, q), StateOf(NO_ROWS, q));
    } else {
      PrecheckLeadsToApply(a, q, unlock, sessions);
      AppliedStatus(a, q, unlock, sessions, Seen(a, q));
    }
  }

  /** The profiles of the tool converge from an absent, open or locked account, when unlocking opens a locked one. */
  lemma ProfilesConverge(a: Account, profile: string, unlock: Unlocking, sessions: Sessions)
    requires Clean(a, ForProfile(profile)) && AllComplete(sessions)
    requires a.Present? ==> a.status == "OPEN" || a.status == "LOCKED"
    requires unlock("LOCKED") == "OPEN"
    ensures var (after, r) := Provisioned(a, ForProfile(profile), unlock, sessions);
      Ready(after, ForProfile(profile)) && Succeeds(r.verdict)
  {
    ProfilesAreConsistent(profile);
    Converges(a, ForProfile(profile), unlock, sessions);
  }

  // ---------------------------------------------------------------- interrupted runs

  lemma ExtendsIsClean(a: Account, b: Account, q: Requirements)
    requires Extends(a, b, q) && Clean(a, q) && Consistent(q)
    ensures Clean(b, q)
  {
  }

  /** The statements after the opening one leave the status alone. */
  ghost predicate OnlyGrants(statements: seq<Statement>) {
    forall st :: st in statements ==> st != Unlock && st != CreateUser
  }

  lemma {:induction false} GrantsKeepStatus(a: Account, statements: seq<Statement>, unlock: Unlocking)
    requires a.Present? && OnlyGrants(statements)
    ensures ApplyAll(a, statements, unlock).Present? && ApplyAll(a, statements, unlock).status == a.status
    decreases |statements|
  {
    if statements == [] {
    } else {
      var k := |statements| - 1;
      assert statements[k] in statements;
      assert forall st :: st in statements[..k] ==> st in statements;
      GrantsKeepStatus(a, statements[..k], unlock);
    }
  }

  lemma OnlyGrantsConcat(x: seq<Statement>, y: seq<Statement>)
    requires OnlyGrants(x) && OnlyGrants(y)
    ensures OnlyGrants(x + y)
  {
  }

  lemma OnlyGrantsEach(names: set<string>, make: string -> Statement)
    requires forall n :: make(n) != Unlock && make(n) != CreateUser
    ensures OnlyGrants(Each(names, make))
  {
    forall st | st in Each(names, make) ensures st != Unlock && st != CreateUser { EachMembers(names, make, st); }
  }

  lemma GrantsAreGrants(s: AccountState)
    ensures OnlyGrants(Grants(s))
  {
    var p, r, t, n := Each(s.missingPrivileges, ForPrivilege), Each(s.missingRoles, ForRole),
                      Each(s.missingTables, ForTable), Each(s.missingSynonyms, ForSynonym);
    OnlyGrantsEach(s.missingPrivileges, ForPrivilege);
    OnlyGrantsEach(s.missingRoles, ForRole);
    OnlyGrantsEach(s.missingTables, ForTable);
    OnlyGrantsEach(s.missingSynonyms, ForSynonym);
    OnlyGrantsConcat(p, r);
    OnlyGrantsConcat(p + r, DefaultRole(s));
    OnlyGrantsConcat(p + r + DefaultRole(s), t);
    OnlyGrantsConcat(p + r + DefaultRole(s) + t, n);
  }

  lemma OpenedCanOpen(a: Account, unlock: Unlocking)
    requires CanOpen(a, unlock)
    ensures CanOpen(Opened(a, unlock), unlock)
  {
  }

  lemma OnlyGrantsPrefix(statements: seq<Statement>, n: nat)
    requires OnlyGrants(statements) && n <= |statements|
    ensures OnlyGrants(statements[..n])
  {
    forall st | st in statements[..n] ensures st in statements {}
  }

  /** Cutting the statements anywhere leaves an account that can still be opened. */
  lemma PrefixCanOpen(a: Account, s: AccountState, n: nat, unlock: Unlocking)
    requires Describes(s, a) && CanOpen(a, unlock) && n <= |Statements(s)|
    ensures CanOpen(ApplyAll(a, Statements(s)[..n], unlock), unlock)
  {
    OpeningEffect(a, s, unlock);
    OpenedCanOpen(a, unlock);
    GrantsAreGrants(s);
    CutCanOpen(a, Opening(s), Grants(s), n, unlock);
  }

  lemma CutCanOpen(a: Account, opening: seq<Statement>, grants: seq<Statement>, n: nat, unlock: Unlocking)
    requires CanOpen(a, unlock) && |opening| <= 1 && OnlyGrants(grants) && n <= |opening + grants|
    requires ApplyAll(a, opening, unlock) == Opened(a, unlock) && CanOpen(Opened(a, unlock), unlock)
    ensures CanOpen(ApplyAll(a, (opening + grants)[..n], unlock), unlock)
  {
    if n < |opening| {
      assert (opening + grants)[..n] == [];
    } else {
      CutAfter(opening, grants, n);
      OnlyGrantsPrefix(grants, n - |opening|);
      ApplyConcat(a, opening, grants[..n - |opening|], unlock);
      GrantsKeepStatus(Opened(a, unlock), grants[..n - |opening|], unlock);
    }
  }

  lemma CutAfter(x: seq<Statement>, y: seq<Statement>, n: nat)
    requires |x| <= n <= |x + y|
    ensures (x + y)[..n] == x + y[..n - |x|]
  {
  }

  lemma ExecutedIsPrefix(statements: seq<Statement>, sessions: Sessions) returns (n: nat)
    ensures n <= |statements| && Executed(statements, sessions) == statements[..n]
  {
    n := if sessions.apply == "completed" || sessions.reach >= |statements| then |statements| else sessions.reach;
    assert statements[..|statements|] == statements;
  }

  lemma AfterCanOpen(a: Account, q: Requirements, unlock: Unlocking, sessions: Sessions)
    requires Clean(a, q) && CanOpen(a, unlock)
    ensures CanOpen(Provisioned(a, q, unlock, sessions).0, unlock)
  {
    if sessions.pre == "completed" {
      if Ready(a, q) {
        ReadyAppliesNothing(a, q, unlock, sessions);
      } else {
        PrecheckLeadsToApply(a, q, unlock, sessions);
        SeenDescribes(a, q);
        var n := ExecutedIsPrefix(Statements(Seen(a, q)), sessions);
        PrefixCanOpen(a, Seen(a, q), n, unlock);
      }
    }
  }

  /** However a first run is interrupted, a second run whose sessions complete makes the account ready. */
  lemma RerunConverges(a: Account, q: Requirements, unlock: Unlocking, sessions: Sessions, again: Sessions)
    requires Consistent(q) && Clean(a, q) && CanOpen(a, unlock) && AllComplete(again)
    ensures var first := Provisioned(a, q, unlock, sessions).0;
      var (final, r) := Provisioned(first, q, unlock, again);
      Ready(final, q) && Succeeds(r.verdict)
  {
    var first := Provisioned(a, q, unlock, sessions).0;
    NothingIsTakenAway(a, q, unlock, sessions);
    ExtendsIsClean(a, first, q);
    AfterCanOpen(a, q, unlock, sessions);
    Converges(first, q, unlock, again);
  }
}
