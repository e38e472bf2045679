/**
 Provisioning the working database account: inspect it, classify it, apply the missing
 grants, inspect again.
 */
module Provisioning {
  import opened Sequences
  import opened Wrappers
  import opened Ordering

  // ---------------------------------------------------------------- the account in the database

  datatype Target = Target(owner: string, table: string)

  datatype Grant = Grant(privilege: string, owner: string, table: string)

  datatype Account =
    | Absent
    | Present(status: string, roles: set<string>, privileges: set<string>, grants: set<Grant>, synonyms: map<string, Target>)

  datatype Statement =
    | CreateUser
    | Unlock
    | GrantPrivilege(privilege: string)
    | GrantRole(role: string)
    | DefaultRoleAll
    | GrantSelect(table: string)
    | CreateSynonym(name: string)

  /** What unlocking does to an account status; the database decides it. */
  type Unlocking = string -> string

  function Apply(a: Account, st: Statement, unlock: Unlocking): Account {
    match a
    case Absent => if st == CreateUser then Present("OPEN", {}, {}, {}, map[]) else Absent
    case Present(_, _, _, _, _) =>
      match st
      case CreateUser => a
      case Unlock => a.(status := unlock(a.status))
      case GrantPrivilege(p) => a.(privileges := a.privileges + {p})
      case GrantRole(r) => a.(roles := a.roles + {r})
      case DefaultRoleAll => a
      case GrantSelect(t) => a.(grants := a.grants + {Grant("SELECT", "SH", t)})
      case CreateSynonym(n) => a.(synonyms := a.synonyms[n := Target("SH", n)])
  }

  function ApplyAll(a: Account, statements: seq<Statement>, unlock: Unlocking): Account {
    if statements == [] then a
    else Apply(ApplyAll(a, statements[..|statements| - 1], unlock), statements[|statements| - 1], unlock)
  }

  // ---------------------------------------------------------------- the grant profiles

  datatype Requirements = Requirements(
    roles: set<string>,
    privileges: set<string>,
    tables: set<string>,
    synonyms: set<string>,
    driftRoles: set<string>,
    driftPrivileges: set<string>)

  const SH_TABLES := {"CHANNELS", "CUSTOMERS", "PRODUCTS", "SALES", "TIMES"}
  const DRIFT_ROLES := {"DBA", "PDB_DBA", "RESOURCE"}
  const DRIFT_PRIVILEGES := {"ALTER ANY TABLE", "CREATE ANY TABLE", "CREATE TABLE", "DELETE ANY TABLE", "DROP ANY TABLE",
                             "INSERT ANY TABLE", "UPDATE ANY TABLE"}

  function ForProfile(profile: string): Requirements {
    if profile == "prototype-any-table-read" then
      Requirements({"DWROLE"}, {"CREATE SESSION", "SELECT ANY TABLE"}, {}, SH_TABLES, DRIFT_ROLES, DRIFT_PRIVILEGES)
    else if profile == "production-sh-read" then
      Requirements({}, {"CREATE SESSION"}, SH_TABLES, SH_TABLES, DRIFT_ROLES + {"DWROLE"}, DRIFT_PRIVILEGES + {"SELECT ANY TABLE"})
    else
      Requirements({}, {"CREATE SESSION"}, {}, {}, DRIFT_ROLES, DRIFT_PRIVILEGES)
  }

  ghost predicate Consistent(q: Requirements) {
    q.roles !! q.driftRoles && q.privileges !! q.driftPrivileges
  }

  /** No profile requires what it rejects as drift. */
  lemma ProfilesAreConsistent(profile: string)
    ensures Consistent(ForProfile(profile))
  {
    assert "DWROLE"[1] == 'W' && "DBA"[1] == 'B' && "PDB_DBA"[1] == 'D' && "RESOURCE"[1] == 'E';
    assert "CREATE SESSION"[7] == 'S' && "CREATE TABLE"[7] == 'T' && "CREATE ANY TABLE"[7] == 'A';
    assert "SELECT ANY TABLE"[0] == 'S' && "CREATE SESSION"[0] == 'C';
    assert "ALTER ANY TABLE"[0] == 'A' && "DELETE ANY TABLE"[0] == 'D' && "DROP ANY TABLE"[0] == 'D';
    assert "INSERT ANY TABLE"[0] == 'I' && "UPDATE ANY TABLE"[0] == 'U' && "CREATE ANY TABLE"[0] == 'C' && "CREATE TABLE"[0] == 'C';
  }

  // ---------------------------------------------------------------- inspecting the account

  /** The rows one inspection returns. */
  datatype Rows = Rows(status: Option<string>, roles: set<string>, privileges: set<string>,
                       grants: set<Grant>, synonyms: map<string, Target>)

  const NO_ROWS := Rows(None, {}, {}, {}, map[])

  function Inspected(a: Account, q: Requirements): Rows {
    match a
    case Absent => NO_ROWS
    case Present(status, roles, privileges, grants, synonyms) =>
      Rows(Some(status),
           roles * (q.roles + q.driftRoles),
           privileges * (q.privileges + q.driftPrivileges),
           (set g | g in grants && g.owner == "SH" && g.table in q.tables),
           map n | n in synonyms && n in q.synonyms :: synonyms[n])
  }

  datatype Drift = UnexpectedSynonym(name: string) | UnexpectedRole(name: string) | UnexpectedPrivilege(name: string)

  datatype AccountState = AccountState(
    observed: bool,
    status: Option<string>,
    missingRoles: set<string>,
    missingPrivileges: set<string>,
    missingTables: set<string>,
    missingSynonyms: set<string>,
    drift: seq<Drift>)
  {
    predicate Exists() {
      status.Some?
    }

    predicate Compliant() {
      status == Some("OPEN") && missingRoles == {} && missingPrivileges == {} && missingTables == {} && missingSynonyms == {}
    }
  }

  function Label<T>(names: seq<string>, make: string -> T): (r: seq<T>)
    ensures |r| == |names|
  {
    seq(|names|, i requires 0 <= i < |names| => make(names[i]))
  }

  /** One item for each name, in name order. */
  function Each<T>(names: set<string>, make: string -> T): (r: seq<T>)
    ensures |r| == |names|
  {
    Label(Sorted(names), make)
  }

  function SynonymDrift(n: string): Drift { UnexpectedSynonym(n) }
  function RoleDrift(n: string): Drift { UnexpectedRole(n) }
  function PrivilegeDrift(n: string): Drift { UnexpectedPrivilege(n) }

  predicate PointsHome(rows: Rows, n: string) {
    n in rows.synonyms && rows.synonyms[n] == Target("SH", n)
  }

  predicate Astray(rows: Rows, q: Requirements, n: string) {
    n in q.synonyms && !PointsHome(rows, n)
  }

  /** The unexpected synonyms among the rows with these names, in order. */
  function SynonymDrifts(rows: Rows, q: Requirements, names: seq<string>): seq<Drift> {
    if names == [] then []
    else
      var k := |names| - 1;
      SynonymDrifts(rows, q, names[..k]) + if Astray(rows, q, names[k]) then [SynonymDrift(names[k])] else []
  }

  function Drifts(rows: Rows, q: Requirements): seq<Drift> {
    SynonymDrifts(rows, q, Sorted(rows.synonyms.Keys))
    + Each(rows.roles * q.driftRoles, RoleDrift)
    + Each(rows.privileges * q.driftPrivileges, PrivilegeDrift)
  }

  function StateOf(rows: Rows, q: Requirements): AccountState {
    AccountState(
      rows != NO_ROWS,
      rows.status,
      q.roles - rows.roles,
      q.privileges - rows.privileges,
      (set t | t in q.tables && Grant("SELECT", "SH", t) !in rows.grants),
      (set n | n in q.synonyms && Astray(rows, q, n)),
      Drifts(rows, q))
  }

  // ---------------------------------------------------------------- classifying

  datatype Verdict = Verdict(classification: string, pre: AccountState, post: AccountState)
  {
    function Active(): AccountState {
      if post.observed then post else pre
    }
  }

  function Classification(completed: bool, pre: AccountState, post: AccountState): string {
    var active := if post.observed then post else pre;
    if !completed then "failed"
    else if active.drift != [] then "rejected_drift"
    else if post.observed && !post.Compliant() then "failed_incomplete"
    else if post.observed && !pre.Exists() then "created"
    else if post.observed && !pre.Compliant() then "granted_missing_privileges"
    else if active.Compliant() then "already_compliant"
    else "granted_missing_privileges"
  }

  function Judge(status: string, pre: AccountState, post: AccountState): Verdict {
    Verdict(Classification(status == "completed", pre, post), pre, post)
  }

  predicate Succeeds(v: Verdict) {
    v.classification in {"already_compliant", "created", "granted_missing_privileges"} && v.Active().Compliant()
  }

  // ---------------------------------------------------------------- the statements to apply

  function Opening(s: AccountState): seq<Statement> {
    if !s.Exists() then [CreateUser] else if s.status != Some("OPEN") then [Unlock] else []
  }

  function DefaultRole(s: AccountState): seq<Statement> {
    if "DWROLE" in s.missingRoles then [DefaultRoleAll] else []
  }

  function ForPrivilege(n: string): Statement { GrantPrivilege(n) }
  function ForRole(n: string): Statement { GrantRole(n) }
  function ForTable(n: string): Statement { GrantSelect(n) }
  function ForSynonym(n: string): Statement { CreateSynonym(n) }

  function Grants(s: AccountState): seq<Statement> {
    Each(s.missingPrivileges, ForPrivilege)
    + Each(s.missingRoles, ForRole)
    + DefaultRole(s)
    + Each(s.missingTables, ForTable)
    + Each(s.missingSynonyms, ForSynonym)
  }

  function Statements(s: AccountState): seq<Statement> {
    Opening(s) + Grants(s)
  }

  /** How the three database sessions end, and how many statements an interrupted one executes. */
  datatype Sessions = Sessions(pre: string, apply: string, reach: nat, post: string)

  function Executed(statements: seq<Statement>, sessions: Sessions): seq<Statement> {
    if sessions.apply == "completed" || sessions.reach >= |statements| then statements else statements[..sessions.reach]
  }

  datatype Result = Result(status: string, phase: string, verdict: Verdict, actions: seq<Statement>)

  /** Applying what is missing and inspecting again. */
  function Applied(a: Account, q: Requirements, unlock: Unlocking, sessions: Sessions, pre: AccountState): (Account, Result) {
    var none := StateOf(NO_ROWS, q);
    var after := ApplyAll(a, Executed(Statements(pre), sessions), unlock);
    if sessions.apply != "completed" then
      (after, Result(sessions.apply, "apply", Judge(sessions.apply, none, none), Statements(pre)))
    else
      (after, Result(sessions.post, "postcheck", Judge(sessions.post, pre, StateOf(Inspected(after, q), q)), Statements(pre)))
  }

  /** One provisioning run: the account afterwards and the reported result. */
  function Provisioned(a: Account, q: Requirements, unlock: Unlocking, sessions: Sessions): (Account, Result) {
    var none := StateOf(NO_ROWS, q);
    var pre := StateOf(Inspected(a, q), q);
    var verdict := Judge("completed", pre, none);
    if sessions.pre != "completed" then (a, Result(sessions.pre, "precheck", Judge(sessions.pre, pre, none), []))
    else if verdict.classification == "rejected_drift" then (a, Result("rejected_drift", "precheck", verdict, []))
    else if verdict.classification == "already_compliant" || Statements(pre) == [] then
      (a, Result("completed", "precheck", verdict, []))
    else Applied(a, q, unlock, sessions, pre)
  }

  // ---------------------------------------------------------------- the procedure

  class Database {
    const unlock: Unlocking
    var account: Account

    constructor (account: Account, unlock: Unlocking)
      ensures this.account == account && this.unlock == unlock
    {
      this.account, this.unlock := account, unlock;
    }

    /** Executes the statements in order. */
    method Execute(statements: seq<Statement>)
      modifies this
      ensures account == ApplyAll(old(account), statements, unlock)
    {
      for i := 0 to |statements|
        invariant account == ApplyAll(old(account), statements[..i], unlock)
      {
        assert statements[..i + 1][..i] == statements[..i];
        account := Apply(account, statements[i], unlock);
      }
      assert statements[..|statements|] == statements;
    }
  }

  /** The required names among `done` whose synonym points to its own table. */
  function Valid(rows: Rows, q: Requirements, done: set<string>): set<string> {
    set n | n in done && n in q.synonyms && PointsHome(rows, n)
  }

  lemma SynonymDriftsStep(rows: Rows, q: Requirements, names: seq<string>, i: nat)
    requires i < |names|
    ensures SynonymDrifts(rows, q, names[..i + 1]) ==
      if Astray(rows, q, names[i]) then SynonymDrifts(rows, q, names[..i]) + [UnexpectedSynonym(names[i])]
      else SynonymDrifts(rows, q, names[..i])
  {
    assert names[..i + 1][..i] == names[..i];
  }

  /** What the loop over the synonym rows holds after the first `i` of them. */
  ghost predicate ReadSoFar(rows: Rows, q: Requirements, i: nat, valid: set<string>, drift: seq<Drift>) {
    && i <= |rows.synonyms.Keys|
    && valid == Valid(rows, q, Least(rows.synonyms.Keys, i))
    && drift == SynonymDrifts(rows, q, Sorted(rows.synonyms.Keys)[..i])
  }

  lemma ValidStep(rows: Rows, q: Requirements, done: set<string>, n: string)
    ensures Valid(rows, q, done + {n}) == Valid(rows, q, done) + if n in q.synonyms && PointsHome(rows, n) then {n} else {}
  {
  }

  lemma ReadTurn(rows: Rows, q: Requirements, i: nat, valid: set<string>, drift: seq<Drift>)
    requires ReadSoFar(rows, q, i, valid, drift) && i < |rows.synonyms.Keys|
    ensures var n := Sorted(rows.synonyms.Keys)[i];
      && n in rows.synonyms
      && (n in q.synonyms && PointsHome(rows, n) ==> ReadSoFar(rows, q, i + 1, valid + {n}, drift))
      && (n in q.synonyms && !PointsHome(rows, n) ==> ReadSoFar(rows, q, i + 1, valid, drift + [UnexpectedSynonym(n)]))
      && (n !in q.synonyms ==> ReadSoFar(rows, q, i + 1, valid, drift))
  {
    LeastStep(rows.synonyms.Keys, i);
    ValidStep(rows, q, Least(rows.synonyms.Keys, i), Sorted(rows.synonyms.Keys)[i]);
    SynonymDriftsStep(rows, q, Sorted(rows.synonyms.Keys), i);
  }

  lemma ValidAll(rows: Rows, q: Requirements)
    ensures q.synonyms - Valid(rows, q, rows.synonyms.Keys) == set n | n in q.synonyms && Astray(rows, q, n)
  {
  }

  lemma ReadEnds(rows: Rows, q: Requirements, valid: set<string>, drift: seq<Drift>)
    ensures ReadSoFar(rows, q, 0, {}, [])
    ensures ReadSoFar(rows, q, |rows.synonyms.Keys|, valid, drift) ==>
      valid == Valid(rows, q, rows.synonyms.Keys) && drift == SynonymDrifts(rows, q, Sorted(rows.synonyms.Keys))
  {
    LeastEnds(rows.synonyms.Keys);
    var names := Sorted(rows.synonyms.Keys);
    assert names[..|names|] == names && names[..0] == [];
  }

  method ReadSynonyms(rows: Rows, q: Requirements) returns (valid: set<string>, drift: seq<Drift>)
    ensures valid == Valid(rows, q, rows.synonyms.Keys)
    ensures drift == SynonymDrifts(rows, q, Sorted(rows.synonyms.Keys))
  {
    var names := Sorted(rows.synonyms.Keys);
    valid, drift := {}, [];
    ReadEnds(rows, q, valid, drift);
    for i := 0 to |names|
      invariant ReadSoFar(rows, q, i, valid, drift)
    {
      ReadTurn(rows, q, i, valid, drift);
      var n := names[i];
      if n in q.synonyms && rows.synonyms[n].owner == "SH" && rows.synonyms[n].table == n {
        valid := valid + {n};
      } else if n in q.synonyms {
        drift := drift + [UnexpectedSynonym(n)];
      }
    }
    ReadEnds(rows, q, valid, drift);
  }

  method ReadState(rows: Rows, q: Requirements) returns (s: AccountState)
    ensures s == StateOf(rows, q)
  {
    var valid, drift := ReadSynonyms(rows, q);
    drift := drift + Each(rows.roles * q.driftRoles, RoleDrift);
    drift := drift + Each(rows.privileges * q.driftPrivileges, PrivilegeDrift);
    ValidAll(rows, q);
    s := AccountState(rows != NO_ROWS, rows.status, q.roles - rows.roles, q.privileges - rows.privileges,
                      (set t | t in q.tables && Grant("SELECT", "SH", t) !in rows.grants), q.synonyms - valid, drift);
  }

  method AppendEach(statements0: seq<Statement>, names: set<string>, make: string -> Statement) returns (statements: seq<Statement>)
    ensures statements == statements0 + Each(names, make)
  {
    statements := statements0;
    for i := 0 to |names|
      invariant statements == statements0 + Each(names, make)[..i]
    {
      statements := statements + [make(Sorted(names)[i])];
    }
  }

  method MissingStatements(s: AccountState) returns (statements: seq<Statement>)
    ensures statements == Statements(s)
  {
    ghost var o, p, r, d, t := Opening(s), Each(s.missingPrivileges, ForPrivilege), Each(s.missingRoles, ForRole),
                               DefaultRole(s), Each(s.missingTables, ForTable);
    statements := Opening(s);
    statements := AppendEach(statements, s.missingPrivileges, ForPrivilege);
    statements := AppendEach(statements, s.missingRoles, ForRole);
    Assoc(o, p, r);
    statements := statements + DefaultRole(s);
    Assoc(o, p + r, d);
    statements := AppendEach(statements, s.missingTables, ForTable);
    Assoc(o, p + r + d, t);
    statements := AppendEach(statements, s.missingSynonyms, ForSynonym);
    Assoc(o, p + r + d + t, Each(s.missingSynonyms, ForSynonym));
  }

  method Provision(db: Database, profile: string, sessions: Sessions) returns (r: Result)
    modifies db
    ensures (db.account, r) == Provisioned(old(db.account), ForProfile(profile), db.unlock, sessions)
  {
    r := ProvisionFor(db, ForProfile(profile), sessions);
  }

  method ProvisionFor(db: Database, q: Requirements, sessions: Sessions) returns (r: Result)
    modifies db
    ensures (db.account, r) == Provisioned(old(db.account), q, db.unlock, sessions)
  {
    var pre := ReadState(Inspected(db.account, q), q);
    var none := ReadState(NO_ROWS, q);
    if sessions.pre != "completed" { return Result(sessions.pre, "precheck", Judge(sessions.pre, pre, none), []); }
    var verdict := Judge("completed", pre, none);
    if verdict.classification == "rejected_drift" { return Result("rejected_drift", "precheck", verdict, []); }
    if verdict.classification == "already_compliant" { return Result("completed", "precheck", verdict, []); }
    var statements := MissingStatements(pre);
    if statements == [] { return Result("completed", "precheck", verdict, []); }
    db.Execute(Executed(statements, sessions));
    if sessions.apply != "completed" {
      return Result(sessions.apply, "apply", Judge(sessions.apply, none, none), statements);
    }
    var post := ReadState(Inspected(db.account, q), q);
    r := Result(sessions.post, "postcheck", Judge(sessions.post, pre, post), statements);
  }
}
