/**
 * The hosted backend as the scripts see it: an auth endpoint that creates a
 * user and a table endpoint that inserts a record. Nothing is known of how
 * the service decides its answers, so they are supplied from outside: the
 * answer to a call may depend on everything asked before it, which is what
 * the position of the call in the run's history stands for.
 */
module Provisioning {
  import opened Wrappers
  import Rows

  /** The password every new account is created with (`DEFAULT_PASSWORD`). */
  const DefaultPassword: string := "Temp@1234"

  /** `supabase.auth.admin.createUser({ email, password, email_confirm, user_metadata })`. */
  datatype AuthRequest = AuthRequest(
    email: string,
    password: string,
    emailConfirm: bool,
    fullName: string,
    branch: Option<string>,
    accountNumber: string)

  /**
   * The user-creation request both scripts send for an agent: the derived
   * address, the default password, auto-confirmed, and the agent's details
   * as user metadata.
   */
  function SignUp(agent: Rows.Agent, email: string): AuthRequest
  {
    AuthRequest(email, DefaultPassword, true, agent.fullName, agent.branch, agent.accountNumber)
  }

  /** A record handed to `supabase.from(table).insert(...)`. */
  datatype Record =
    | ProfileRecord(id: string, fullName: string, branch: Option<string>, accountNumber: string, mustChangePassword: bool)
    | UserRecord(id: string, role: string, branch: Option<string>)

  /** One request that reaches the service. */
  datatype Call =
    | CreateUser(request: AuthRequest)
    | Insert(table: string, record: Record)

  /** The three ways `createUser` can end: a user (with its id), an `error` in the reply, or a thrown exception. */
  datatype AuthReply = AuthOk(userId: string) | AuthFailed(message: string) | AuthThrew(message: string)

  /** The three ways `insert` can end. */
  datatype InsertReply = InsertOk | InsertFailed(message: string) | InsertThrew(message: string)

  /** The answers the service gives to the call at each position of the history. */
  datatype Service = Service(onCreateUser: nat -> AuthReply, onInsert: nat -> InsertReply)

  /** What the loop reports for one row (the console line it prints). */
  datatype Outcome =
    | Skipped(row: Rows.Row)
    | AuthError(email: string, message: string)
    | ProfileError(email: string, message: string)
    | Created(email: string)
    | UnexpectedError(email: string, message: string)

  /** The remote service during one run, with every call it has received so far. */
  class Backend {
    const service: Service
    var calls: seq<Call>

    constructor (service: Service)
      ensures this.service == service && calls == []
    {
      this.service := service;
      calls := [];
    }

    method CreateUser(request: AuthRequest) returns (reply: AuthReply)
      modifies this
      ensures calls == old(calls) + [Call.CreateUser(request)]
      ensures reply == service.onCreateUser(|old(calls)|)
    {
      reply := service.onCreateUser(|calls|);
      calls := calls + [Call.CreateUser(request)];
    }

    method Insert(table: string, record: Record) returns (reply: InsertReply)
      modifies this
      ensures calls == old(calls) + [Call.Insert(table, record)]
      ensures reply == service.onInsert(|old(calls)|)
    {
      reply := service.onInsert(|calls|);
      calls := calls + [Call.Insert(table, record)];
    }
  }

  /** The number of user-creation requests in a history. */
  function CreateUserCount(calls: seq<Call>): (n: nat)
    ensures n <= |calls|
  {
    if calls == [] then 0
    else CreateUserCount(calls[..|calls| - 1]) + (if calls[|calls| - 1].CreateUser? then 1 else 0)
  }

  lemma {:induction false} CreateUserCountAppend(a: seq<Call>, b: seq<Call>)
    ensures CreateUserCount(a + b) == CreateUserCount(a) + CreateUserCount(b)
    decreases |b|
  {
    if b == [] {
      assert a + b == a;
    } else {
      assert (a + b)[..|a + b| - 1] == a + b[..|b| - 1];
      CreateUserCountAppend(a, b[..|b| - 1]);
    }
  }

  /** The outcome of one row and the calls it made, in order. */
  datatype Step = Step(outcome: Outcome, calls: seq<Call>)

  /** The log of a run (one outcome per row) and the calls it made, in order. */
  datatype Trace = Trace(log: seq<Outcome>, calls: seq<Call>)

  /**
   * The `end` handler's `for (const row of rows)` loop, up to row `n`: the
   * rows in file order, each handled by `step` given how many calls the run
   * has made before it. Every row ends in an outcome and the loop goes on.
   */
  function RunFirst(step: (Rows.Row, nat) -> Step, rows: seq<Rows.Row>, n: nat, k: nat): (t: Trace)
    requires n <= |rows|
    ensures |t.log| == n
  {
    if n == 0 then Trace([], [])
    else
      var before := RunFirst(step, rows, n - 1, k);
      var s := step(rows[n - 1], k + |before.calls|);
      Trace(before.log + [s.outcome], before.calls + s.calls)
  }

  /**
   * What one iteration of the loop keeps: if the log and the history so far
   * are those of the first `i` rows, and row `i` then reports `outcome` and
   * makes its calls, they are those of the first `i + 1` rows.
   */
  lemma RunFirstLoop(step: (Rows.Row, nat) -> Step, rows: seq<Rows.Row>, i: nat, before: seq<Call>,
                     log: seq<Outcome>, calls: seq<Call>, outcome: Outcome, after: seq<Call>)
    requires i < |rows|
    requires log == RunFirst(step, rows, i, |before|).log
    requires calls == before + RunFirst(step, rows, i, |before|).calls
    requires outcome == step(rows[i], |calls|).outcome && after == calls + step(rows[i], |calls|).calls
    ensures log + [outcome] == RunFirst(step, rows, i + 1, |before|).log
    ensures after == before + RunFirst(step, rows, i + 1, |before|).calls
  {
    var t := RunFirst(step, rows, i, |before|);
    assert (before + t.calls) + step(rows[i], |calls|).calls == before + (t.calls + step(rows[i], |calls|).calls);
  }

  /** The whole loop, from a history of `k` calls: one outcome per row. */
  function Run(step: (Rows.Row, nat) -> Step, rows: seq<Rows.Row>, k: nat): (t: Trace)
    ensures |t.log| == |rows|
  {
    RunFirst(step, rows, |rows|, k)
  }

  /** The run over the first `i` rows is the start of the run over the first `n`. */
  lemma {:induction false} RunPrefix(step: (Rows.Row, nat) -> Step, rows: seq<Rows.Row>, k: nat, i: nat, n: nat)
    requires i <= n <= |rows|
    ensures RunFirst(step, rows, i, k).log == RunFirst(step, rows, n, k).log[..i]
    ensures RunFirst(step, rows, i, k).calls <= RunFirst(step, rows, n, k).calls
    decreases n
  {
    if i < n {
      RunPrefix(step, rows, k, i, n - 1);
      var t := RunFirst(step, rows, n - 1, k);
      assert RunFirst(step, rows, n, k).log[..n - 1] == t.log;
    }
  }

  /**
   * Row `i` is reported by the `i`-th outcome, which is what the step makes
   * of that row given the calls of the rows before it, whatever those rows
   * ended in; those calls, then the row's own, open the run's history.
   */
  lemma RunAt(step: (Rows.Row, nat) -> Step, rows: seq<Rows.Row>, k: nat, i: nat)
    requires i < |rows|
    ensures var before := RunFirst(step, rows, i, k);
            var s := step(rows[i], k + |before.calls|);
            var t := Run(step, rows, k);
            && t.log[i] == s.outcome
            && before.calls + s.calls <= t.calls
  {
    RunPrefix(step, rows, k, i + 1, |rows|);
    var t := Run(step, rows, k);
    assert t.log[..i + 1][i] == t.log[i];
  }

  /**
   * When every row makes one user-creation request if it satisfies `valid`
   * and none otherwise, a run makes exactly as many requests as it has such
   * rows: no row is signed up twice and none is missed.
   */
  lemma RunCreateUserCount(step: (Rows.Row, nat) -> Step, rows: seq<Rows.Row>, k: nat, valid: Rows.Row -> bool)
    requires forall row, n :: CreateUserCount(step(row, n).calls) == (if valid(row) then 1 else 0)
    ensures CreateUserCount(Run(step, rows, k).calls) == Rows.Count(valid, rows)
  {
    RunFirstCreateUserCount(step, rows, |rows|, k, valid);
    assert rows[..|rows|] == rows;
  }

  lemma {:induction false} RunFirstCreateUserCount(step: (Rows.Row, nat) -> Step, rows: seq<Rows.Row>, n: nat, k: nat,
                                                   valid: Rows.Row -> bool)
    requires n <= |rows|
    requires forall row, m :: CreateUserCount(step(row, m).calls) == (if valid(row) then 1 else 0)
    ensures CreateUserCount(RunFirst(step, rows, n, k).calls) == Rows.Count(valid, rows[..n])
  {
    if n > 0 {
      RunFirstCreateUserCount(step, rows, n - 1, k, valid);
      var t := RunFirst(step, rows, n - 1, k);
      var s := step(rows[n - 1], k + |t.calls|);
      CreateUserCountAppend(t.calls, s.calls);
      assert rows[..n][..n - 1] == rows[..n - 1];
    }
  }

  /**
   * Whatever holds of every row and the outcome the step gives it, in any
   * history, holds of every row of a run and the outcome the run logs for it.
   */
  lemma RunEvery(step: (Rows.Row, nat) -> Step, rows: seq<Rows.Row>, k: nat, ok: (Rows.Row, Outcome) -> bool)
    requires forall row, m :: ok(row, step(row, m).outcome)
    ensures forall j :: 0 <= j < |rows| ==> ok(rows[j], Run(step, rows, k).log[j])
  {
    forall j | 0 <= j < |rows|
      ensures ok(rows[j], Run(step, rows, k).log[j])
    {
      RunAt(step, rows, k, j);
    }
  }

  /**
   * The call at position `j` of a history that starts at call number `k`
   * is the insert into `table` of `record(request, id)`, where `request` is
   * the sign-up made by the call just before it and `id` the user that
   * sign-up created.
   */
  predicate FollowsSignUp(calls: seq<Call>, j: nat, service: Service, k: nat, table: string,
                          record: (AuthRequest, string) -> Record)
    requires j < |calls|
  {
    && 0 < j && calls[j - 1].CreateUser?
    && service.onCreateUser(k + j - 1).AuthOk?
    && calls[j] == Insert(table, record(calls[j - 1].request, service.onCreateUser(k + j - 1).userId))
  }

  /**
   * Every insert of the history follows a sign-up as `FollowsSignUp` says:
   * nothing is inserted without a successful sign-up, nor for another user.
   */
  predicate InsertsFollowSignUps(calls: seq<Call>, service: Service, k: nat, table: string,
                                 record: (AuthRequest, string) -> Record)
    decreases |calls|
  {
    calls != [] ==>
      && InsertsFollowSignUps(calls[..|calls| - 1], service, k, table, record)
      && (calls[|calls| - 1].Insert? ==> FollowsSignUp(calls, |calls| - 1, service, k, table, record))
  }

  /** `InsertsFollowSignUps` read position by position. */
  lemma {:induction false} InsertFollowsSignUp(calls: seq<Call>, j: nat, service: Service, k: nat, table: string,
                                               record: (AuthRequest, string) -> Record)
    requires InsertsFollowSignUps(calls, service, k, table, record)
    requires j < |calls| && calls[j].Insert?
    ensures FollowsSignUp(calls, j, service, k, table, record)
    decreases |calls|
  {
    var p := calls[..|calls| - 1];
    if j < |calls| - 1 {
      assert p[j] == calls[j];
      InsertFollowsSignUp(p, j, service, k, table, record);
      assert p[j - 1] == calls[j - 1];
    }
  }

  lemma {:induction false} InsertsFollowSignUpsAppend(a: seq<Call>, b: seq<Call>, service: Service, k: nat, table: string,
                                                      record: (AuthRequest, string) -> Record)
    requires InsertsFollowSignUps(a, service, k, table, record)
    requires InsertsFollowSignUps(b, service, k + |a|, table, record)
    ensures InsertsFollowSignUps(a + b, service, k, table, record)
    decreases |b|
  {
    if b == [] {
      assert a + b == a;
    } else {
      var c := a + b;
      var j := |c| - 1;
      var m := |b| - 1;
      assert c[..j] == a + b[..m];
      InsertsFollowSignUpsAppend(a, b[..m], service, k, table, record);
      if c[j].Insert? {
        assert c[j] == b[m];
        assert 0 < m && c[j - 1] == b[m - 1];
        assert k + j - 1 == (k + |a|) + m - 1;
      }
    }
  }

  /**
   * When every row's calls start with its sign-up and insert only what
   * follows a successful one, so does the history of the whole run.
   */
  lemma {:induction false} RunFirstInsertsFollowSignUps(step: (Rows.Row, nat) -> Step, rows: seq<Rows.Row>, n: nat, k: nat,
                                                        service: Service, table: string, record: (AuthRequest, string) -> Record)
    requires n <= |rows|
    requires forall row, m :: InsertsFollowSignUps(step(row, m).calls, service, m, table, record)
    ensures InsertsFollowSignUps(RunFirst(step, rows, n, k).calls, service, k, table, record)
  {
    if n > 0 {
      RunFirstInsertsFollowSignUps(step, rows, n - 1, k, service, table, record);
      var t := RunFirst(step, rows, n - 1, k);
      InsertsFollowSignUpsAppend(t.calls, step(rows[n - 1], k + |t.calls|).calls, service, k, table, record);
    }
  }

  /** A history of sign-ups only: nothing was inserted. */
  predicate OnlySignUps(calls: seq<Call>)
  {
    forall j :: 0 <= j < |calls| ==> calls[j].CreateUser?
  }

  /** In a history of sign-ups only, every call counts as one. */
  lemma {:induction false} OnlySignUpsCount(calls: seq<Call>)
    requires OnlySignUps(calls)
    ensures CreateUserCount(calls) == |calls|
    decreases |calls|
  {
    if calls != [] {
      OnlySignUpsCount(calls[..|calls| - 1]);
    }
  }

  /** When no row inserts anything, neither does the run. */
  lemma {:induction false} RunFirstOnlySignUps(step: (Rows.Row, nat) -> Step, rows: seq<Rows.Row>, n: nat, k: nat)
    requires n <= |rows|
    requires forall row, m :: OnlySignUps(step(row, m).calls)
    ensures OnlySignUps(RunFirst(step, rows, n, k).calls)
  {
    if n > 0 {
      RunFirstOnlySignUps(step, rows, n - 1, k);
      var t := RunFirst(step, rows, n - 1, k);
      var s := step(rows[n - 1], k + |t.calls|);
      assert forall j :: |t.calls| <= j < |t.calls| + |s.calls| ==> (t.calls + s.calls)[j] == s.calls[j - |t.calls|];
    }
  }

  /**
   * When no row inserts anything and each valid row signs up once, the
   * history of the first `n` rows is one sign-up per valid row among them.
   */
  lemma RunFirstSignUpsOnly(step: (Rows.Row, nat) -> Step, rows: seq<Rows.Row>, n: nat, k: nat, valid: Rows.Row -> bool)
    requires n <= |rows|
    requires forall row, m :: OnlySignUps(step(row, m).calls)
    requires forall row, m :: CreateUserCount(step(row, m).calls) == (if valid(row) then 1 else 0)
    ensures OnlySignUps(RunFirst(step, rows, n, k).calls)
    ensures |RunFirst(step, rows, n, k).calls| == Rows.Count(valid, rows[..n])
  {
    RunFirstOnlySignUps(step, rows, n, k);
    RunFirstCreateUserCount(step, rows, n, k, valid);
    OnlySignUpsCount(RunFirst(step, rows, n, k).calls);
  }

  /**
   * When no row inserts anything and each valid row signs up once, row `i`
   * is handled as the `v`-th call of the run, `v` being the number of valid
   * rows before it.
   */
  lemma RunAtSignUpsOnly(step: (Rows.Row, nat) -> Step, rows: seq<Rows.Row>, k: nat, i: nat, valid: Rows.Row -> bool)
    requires i < |rows|
    requires forall row, m :: OnlySignUps(step(row, m).calls)
    requires forall row, m :: CreateUserCount(step(row, m).calls) == (if valid(row) then 1 else 0)
    ensures Run(step, rows, k).log[i] == step(rows[i], k + Rows.Count(valid, rows[..i])).outcome
  {
    RunAt(step, rows, k, i);
    RunFirstSignUpsOnly(step, rows, i, k, valid);
  }

  /** Two loop bodies that agree on every row and history give the same run. */
  lemma {:induction false} RunFirstSameSteps(step1: (Rows.Row, nat) -> Step, step2: (Rows.Row, nat) -> Step,
                                             rows: seq<Rows.Row>, n: nat, k: nat)
    requires n <= |rows|
    requires forall row, m :: step1(row, m) == step2(row, m)
    ensures RunFirst(step1, rows, n, k) == RunFirst(step2, rows, n, k)
  {
    if n > 0 {
      RunFirstSameSteps(step1, step2, rows, n - 1, k);
    }
  }
}
