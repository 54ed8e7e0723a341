/**
 * The row loop of `create_profiles.js`: the same checks, address and
 * sign-up as the earlier script, then a `users` record giving the new user
 * the mobile-banker role and the agent's branch.
 *
 * As written, that record reads the new user's id from `data`, a name that
 * is not bound where the insert runs (the sign-up reply is bound to
 * `authData`). Reading it throws a `ReferenceError`, which the row's
 * `try`/`catch` reports as an unexpected error before any insert is sent.
 * The model keeps both readings apart with `IdSource`: `Data` is the script
 * as it stands, `AuthData` the evidently intended one.
 */
module CreateProfiles {
  import opened Wrappers
  import opened Rows
  import opened EmailDerivation
  import opened Provisioning
  import opened Preparation
  import Legacy = BulkCreateAgents

  const UsersTable: string := "users"

  /** The role every agent created by the script is given. */
  const MobileBanker: string := "mobile_banker"

  /** The message of the `ReferenceError` raised by reading the unbound `data`. */
  const DataNotDefined: string := "data is not defined"

  /**
   * The variable the insert reads the new user's id from: `data`, as the
   * script is written, or `authData`, the name the sign-up reply is bound to.
   */
  datatype IdSource = Data | AuthData

  /**
   * Evaluating `<source>.user.id` once the sign-up has succeeded with user
   * `userId`: `authData` holds that user; `data` is not bound, so the read
   * fails.
   */
  function ReadUserId(source: IdSource, userId: string): (r: Option<string>)
    ensures r.Some? <==> source == AuthData
    ensures r.Some? ==> r.value == userId
  {
    match source
    case Data => None
    case AuthData => Some(userId)
  }

  /** The `users` record for the user `id` created by `request`: the mobile-banker role and the agent's branch. */
  function UserRow(request: AuthRequest, id: string): Record
  {
    UserRecord(id, MobileBanker, request.branch)
  }

  /**
   * The loop body for a row once it is prepared (`request` is `None` for a
   * skipped row), when the run has made `k` calls before it and the insert
   * reads the id from `source`. An `error` from `createUser` ends the row
   * before any insert; any exception, including the failed read of the id,
   * is caught and reported as unexpected, and the loop goes on.
   */
  function Handle(row: Row, request: Option<AuthRequest>, service: Service, k: nat, source: IdSource): (s: Step)
    ensures s.outcome.Skipped? <==> request.None?
    ensures request.None? ==> s == Step(Skipped(row), [])
    ensures request.Some? ==>
              var auth := service.onCreateUser(k);
              && s.outcome.email == request.value.email
              && 1 <= |s.calls| <= 2
              && s.calls[0] == CreateUser(request.value)
              && (|s.calls| == 2 <==> auth.AuthOk? && source == AuthData)
              && (|s.calls| == 2 ==> s.calls[1] == Insert(UsersTable, UserRow(request.value, auth.userId)))
              && (s.outcome.AuthError? <==> auth.AuthFailed?)
              && (auth.AuthOk? && source == Data ==> s.outcome == UnexpectedError(request.value.email, DataNotDefined))
              && (s.outcome.Created? <==> auth.AuthOk? && source == AuthData && service.onInsert(k + 1).InsertOk?)
              && (s.outcome.ProfileError? <==> auth.AuthOk? && source == AuthData && service.onInsert(k + 1).InsertFailed?)
    ensures request.Some? ==>
              var email := request.value.email;
              var auth := service.onCreateUser(k);
              var inserted := service.onInsert(k + 1);
              && (auth.AuthFailed? ==> s.outcome == AuthError(email, auth.message))
              && (auth.AuthThrew? ==> s.outcome == UnexpectedError(email, auth.message))
              && (auth.AuthOk? && source == AuthData && inserted.InsertFailed? ==> s.outcome == ProfileError(email, inserted.message))
              && (auth.AuthOk? && source == AuthData && inserted.InsertThrew? ==> s.outcome == UnexpectedError(email, inserted.message))
              && (auth.AuthOk? && source == AuthData && inserted.InsertOk? ==> s.outcome == Created(email))
  {
    match request
    case None => Step(Skipped(row), [])
    case Some(request) =>
      var email := request.email;
      match service.onCreateUser(k)
      case AuthThrew(m) => Step(UnexpectedError(email, m), [CreateUser(request)])
      case AuthFailed(m) => Step(AuthError(email, m), [CreateUser(request)])
      case AuthOk(userId) =>
        match ReadUserId(source, userId)
        case None => Step(UnexpectedError(email, DataNotDefined), [CreateUser(request)])
        case Some(id) =>
          var calls := [CreateUser(request), Insert(UsersTable, UserRow(request, id))];
          match service.onInsert(k + 1)
          case InsertThrew(m) => Step(UnexpectedError(email, m), calls)
          case InsertFailed(m) => Step(ProfileError(email, m), calls)
          case InsertOk => Step(Created(email), calls)
  }

  /** One pass of the loop body for `row`. */
  function RowStep(row: Row, service: Service, k: nat, source: IdSource): Step
  {
    Handle(row, Prepare(row), service, k, source)
  }

  /** The loop body as the step of a run against `service`. */
  function Steps(service: Service, source: IdSource): (Row, nat) -> Step
  {
    (row: Row, k: nat) => RowStep(row, service, k, source)
  }

  /**
   * The `try` block of the loop body for a row that passed the check: sign
   * the agent up with `request`, read the new user's id from `source`, then
   * insert its `users` record; a reply or exception that ends the row early
   * is one of the loop's `continue`s or the `catch`.
   */
  method SignUpAndRecord(row: Row, request: AuthRequest, backend: Backend, source: IdSource) returns (outcome: Outcome)
    modifies backend
    ensures var s := Handle(row, Some(request), backend.service, |old(backend.calls)|, source);
            outcome == s.outcome && backend.calls == old(backend.calls) + s.calls
  {
    var auth := backend.CreateUser(request);
    if auth.AuthThrew? {
      return UnexpectedError(request.email, auth.message);
    }
    if auth.AuthFailed? {
      return AuthError(request.email, auth.message);
    }
    var id := ReadUserId(source, auth.userId);
    if id.None? {
      return UnexpectedError(request.email, DataNotDefined);
    }
    var inserted := backend.Insert(UsersTable, UserRow(request, id.value));
    match inserted {
      case InsertThrew(m) => outcome := UnexpectedError(request.email, m);
      case InsertFailed(m) => outcome := ProfileError(request.email, m);
      case InsertOk => outcome := Created(request.email);
    }
  }

  /**
   * The body of the `end` handler's loop for one row, against the live
   * service; the early `return` is the loop's `continue` for a skipped row.
   */
  method ProvisionRow(row: Row, backend: Backend, source: IdSource) returns (outcome: Outcome)
    modifies backend
    ensures var s := Steps(backend.service, source)(row, |old(backend.calls)|);
            outcome == s.outcome && backend.calls == old(backend.calls) + s.calls
  {
    var fullName := Cell(row, NameKey);
    var accountNumber := Cell(row, AccountKey);
    var branch := Cell(row, BranchKey);
    if !Truthy(fullName) || !Truthy(accountNumber) {
      return Skipped(row);
    }
    var email := BuildEmail(fullName.value, accountNumber.value);
    outcome := SignUpAndRecord(row, SignUp(Agent(fullName.value, accountNumber.value, branch), email), backend, source);
  }

  /**
   * The `end` handler's loop over the buffered rows, against the live
   * service: it logs what `Run` says, and the service receives exactly the
   * calls `Run` lists.
   */
  method ProvisionAll(rows: seq<Row>, backend: Backend, source: IdSource) returns (log: seq<Outcome>)
    modifies backend
    ensures var t := Run(Steps(backend.service, source), rows, |old(backend.calls)|);
            log == t.log && backend.calls == old(backend.calls) + t.calls
  {
    ghost var before := backend.calls;
    log := [];
    for i := 0 to |rows|
      invariant var t := RunFirst(Steps(backend.service, source), rows, i, |before|);
                log == t.log && backend.calls == before + t.calls
    {
      ghost var calls := backend.calls;
      var outcome := ProvisionRow(rows[i], backend, source);
      RunFirstLoop(Steps(backend.service, source), rows, i, before, log, calls, outcome, backend.calls);
      log := log + [outcome];
    }
  }

  /** A prepared row makes one user-creation request, and a skipped one none. */
  lemma HandleSignsUpOnce(row: Row, request: Option<AuthRequest>, service: Service, k: nat, source: IdSource)
    ensures CreateUserCount(Handle(row, request, service, k, source).calls) == (if request.Some? then 1 else 0)
  {
    var calls := Handle(row, request, service, k, source).calls;
    if |calls| == 2 {
      assert calls[..1] == [calls[0]] && calls[..1][..0] == [];
    } else if |calls| == 1 {
      assert calls[..0] == [];
    }
  }

  /**
   * `createUser` is called exactly once for every valid row and never for
   * a skipped one, whatever the service answers and however the id is read.
   */
  lemma SignUpsMatchValidRows(service: Service, source: IdSource, rows: seq<Row>, k: nat)
    ensures CreateUserCount(Run(Steps(service, source), rows, k).calls) == Count(Valid, rows)
  {
    forall row, n: nat
      ensures CreateUserCount(Steps(service, source)(row, n).calls) == (if Valid(row) then 1 else 0)
    {
      HandleSignsUpOnce(row, Prepare(row), service, n, source);
    }
    RunCreateUserCount(Steps(service, source), rows, k, Valid);
  }

  /**
   * What a row that signs up (`signsUp`) with call `p` of the history
   * reports as `o` when the id is read from `source`, given the service's
   * replies: created or a profile error only when the id is read from
   * `authData`, exactly when the sign-up succeeds and the insert succeeds or
   * reports an error; an auth error exactly when the sign-up reports one;
   * an unexpected error exactly when a call throws or, as written, the
   * sign-up succeeds, which then reads `data is not defined`; every other
   * error carries the message of the reply or exception that caused it.
   */
  predicate Answered(service: Service, signsUp: bool, p: nat, source: IdSource, o: Outcome)
  {
    var auth := service.onCreateUser(p);
    && (o.Created? <==> signsUp && auth.AuthOk? && source == AuthData && service.onInsert(p + 1).InsertOk?)
    && (o.ProfileError? <==> signsUp && auth.AuthOk? && source == AuthData && service.onInsert(p + 1).InsertFailed?)
    && (o.AuthError? <==> signsUp && auth.AuthFailed?)
    && (signsUp && auth.AuthOk? && source == Data ==> o.UnexpectedError? && o.message == DataNotDefined)
    && (o.UnexpectedError? <==> signsUp && (auth.AuthThrew? || (auth.AuthOk? && (source == Data || service.onInsert(p + 1).InsertThrew?))))
    && (signsUp && auth.AuthFailed? ==> o.message == auth.message)
    && (signsUp && auth.AuthThrew? ==> o.message == auth.message)
    && (signsUp && auth.AuthOk? && source == AuthData && !service.onInsert(p + 1).InsertOk? ==> o.message == service.onInsert(p + 1).message)
  }

  lemma HandleAnswered(row: Row, request: Option<AuthRequest>, service: Service, p: nat, source: IdSource)
    ensures Answered(service, request.Some?, p, source, Handle(row, request, service, p, source).outcome)
  {
  }

  /**
   * What a row reports when its sign-up is call `p` of the history: as
   * `Labelled` says, and, when it passes the check, as `Answered` says.
   */
  lemma RowOutcome(row: Row, service: Service, p: nat, source: IdSource)
    ensures var o := RowStep(row, service, p, source).outcome;
            Labelled(row, o) && Answered(service, Valid(row), p, source, o)
  {
    HandleAnswered(row, Prepare(row), service, p, source);
  }

  /**
   * Every row of a run gets its own outcome, in order: the `j`-th entry of
   * the log is row `j`'s, skipped exactly when that row fails the check and
   * otherwise under its derived address, whatever happened to earlier rows.
   */
  lemma LogLabelled(service: Service, source: IdSource, rows: seq<Row>, k: nat)
    ensures forall j :: 0 <= j < |rows| ==> Labelled(rows[j], Run(Steps(service, source), rows, k).log[j])
  {
    forall row, m: nat
      ensures Labelled(row, Steps(service, source)(row, m).outcome)
    {
      RowOutcome(row, service, m, source);
    }
    RunEvery(Steps(service, source), rows, k, Labelled);
  }

  /** As written, a row never gets past its sign-up. */
  lemma HandleOnlySignsUp(row: Row, request: Option<AuthRequest>, service: Service, k: nat)
    ensures OnlySignUps(Handle(row, request, service, k, Data).calls)
  {
  }

  /**
   * As written, every pass of the loop body, in any history, sends one
   * sign-up for a valid row, nothing for a skipped one, and never an insert.
   */
  lemma AsWrittenStepsSignUpOnly(service: Service)
    ensures forall row, m: nat :: OnlySignUps(Steps(service, Data)(row, m).calls)
    ensures forall row, m: nat :: CreateUserCount(Steps(service, Data)(row, m).calls) == (if Valid(row) then 1 else 0)
  {
    forall row, m: nat
      ensures OnlySignUps(Steps(service, Data)(row, m).calls)
      ensures CreateUserCount(Steps(service, Data)(row, m).calls) == (if Valid(row) then 1 else 0)
    {
      HandleOnlySignsUp(row, Prepare(row), service, m);
      HandleSignsUpOnce(row, Prepare(row), service, m, Data);
    }
  }

  /**
   * As written, the script never inserts a `users` record: the history of
   * the first `i` rows is one sign-up per valid row among them and nothing
   * else.
   */
  lemma AsWrittenNeverInserts(service: Service, rows: seq<Row>, k: nat, i: nat)
    requires i <= |rows|
    ensures OnlySignUps(RunFirst(Steps(service, Data), rows, i, k).calls)
    ensures |RunFirst(Steps(service, Data), rows, i, k).calls| == Count(Valid, rows[..i])
  {
    AsWrittenStepsSignUpOnly(service);
    RunFirstSignUpsOnly(Steps(service, Data), rows, i, k, Valid);
  }

  /** As written, no row of a run is ever reported created or as a profile error. */
  lemma AsWrittenNoRecords(service: Service, rows: seq<Row>, k: nat)
    ensures forall j :: 0 <= j < |rows| ==> NoRecord(rows[j], Run(Steps(service, Data), rows, k).log[j])
  {
    forall row, m: nat
      ensures NoRecord(row, Steps(service, Data)(row, m).outcome)
    {
      RowOutcome(row, service, m, Data);
    }
    RunEvery(Steps(service, Data), rows, k, NoRecord);
  }

  /**
   * As written, row `i` is reported as the loop body reports it when its
   * sign-up is call `k + v`, `v` being the number of valid rows before it;
   * so, by `RowOutcome`, a valid row whose sign-up succeeds is reported as
   * the unexpected error `data is not defined`.
   */
  lemma AsWrittenSignUpAt(service: Service, rows: seq<Row>, k: nat, i: nat)
    requires i < |rows|
    ensures Run(Steps(service, Data), rows, k).log[i] == Steps(service, Data)(rows[i], k + Count(Valid, rows[..i])).outcome
  {
    AsWrittenStepsSignUpOnly(service);
    RunAtSignUpsOnly(Steps(service, Data), rows, k, i, Valid);
  }

  /** A service that accepts every sign-up, as user `id`, and every insert. */
  function Accepting(id: string): Service
  {
    Service((n: nat) => AuthOk(id), (n: nat) => InsertOk)
  }

  /**
   * The discrepancy on one valid row, against a service that accepts
   * everything: as written, the auth user is created but no `users` record
   * follows and the row is reported as `data is not defined`; read from
   * `authData`, the record is inserted for that user and the row is
   * reported created.
   */
  lemma AsWrittenStrandsUsers(row: Row, k: nat, id: string)
    requires Valid(row)
    ensures var request := Prepare(row).value;
            var s := RowStep(row, Accepting(id), k, Data);
            s.outcome == UnexpectedError(request.email, DataNotDefined) && s.calls == [CreateUser(request)]
    ensures var request := Prepare(row).value;
            var s := RowStep(row, Accepting(id), k, AuthData);
            s.outcome == Created(request.email) && s.calls == [CreateUser(request), Insert(UsersTable, UserRow(request, id))]
  {
  }

  /** Neither a created user nor a profile error is reported. */
  predicate NoRecord(row: Row, o: Outcome)
  {
    !o.Created? && !o.ProfileError?
  }

  /** Within one row, the corrected insert comes right after the sign-up it belongs to. */
  lemma HandleUsersFollowSignUps(row: Row, request: Option<AuthRequest>, service: Service, k: nat)
    ensures InsertsFollowSignUps(Handle(row, request, service, k, AuthData).calls, service, k, UsersTable, UserRow)
  {
  }

  /**
   * With the id read from `authData`, every insert is the `users` record of
   * the user created by the sign-up just before it: the mobile-banker role
   * and the branch that sign-up sent.
   */
  lemma CorrectedUsersFollowSignUps(service: Service, rows: seq<Row>, k: nat)
    ensures InsertsFollowSignUps(Run(Steps(service, AuthData), rows, k).calls, service, k, UsersTable, UserRow)
  {
    forall row, m: nat
      ensures InsertsFollowSignUps(Steps(service, AuthData)(row, m).calls, service, m, UsersTable, UserRow)
    {
      HandleUsersFollowSignUps(row, Prepare(row), service, m);
    }
    RunFirstInsertsFollowSignUps(Steps(service, AuthData), rows, |rows|, k, service, UsersTable, UserRow);
  }

  /** While no sign-up succeeds, a row is handled the same by both scripts. */
  lemma HandleAgreesWithLegacy(row: Row, request: Option<AuthRequest>, service: Service, k: nat, source: IdSource)
    requires !service.onCreateUser(k).AuthOk?
    ensures Handle(row, request, service, k, source) == Legacy.Handle(row, request, service, k)
  {
  }

  /**
   * The two scripts differ only after a successful sign-up: against a
   * service that never accepts one, they log the same outcomes and make the
   * same calls, whichever way the id is read.
   */
  lemma AgreesWithLegacyWithoutSignUps(service: Service, source: IdSource, rows: seq<Row>, k: nat)
    requires forall n :: !service.onCreateUser(n).AuthOk?
    ensures Run(Steps(service, source), rows, k) == Run(Legacy.Steps(service), rows, k)
  {
    forall row, m: nat
      ensures Steps(service, source)(row, m) == Legacy.Steps(service)(row, m)
    {
      HandleAgreesWithLegacy(row, Prepare(row), service, m, source);
    }
    RunFirstSameSteps(Steps(service, source), Legacy.Steps(service), rows, |rows|, k);
  }
}
