/**
 * The row loop of `old/bulk_create_agents.js`: skip rows without a name or
 * account number, derive the address, create the auth user, then insert a
 * `profiles` record for it that asks for a password change.
 */
module BulkCreateAgents {
  import opened Wrappers
  import opened Rows
  import opened EmailDerivation
  import opened Provisioning
  import opened Preparation

  const ProfilesTable: string := "profiles"

  /** The `profiles` record for the user `id` created by `request`: the same details, and a forced password change. */
  function Profile(request: AuthRequest, id: string): Record
  {
    ProfileRecord(id, request.fullName, request.branch, request.accountNumber, true)
  }

  /**
   * The loop body for a row once it is prepared (`request` is `None` for a
   * skipped row), when the run has made `k` calls before it. An `error` from
   * `createUser` ends the row before any insert; an exception from either
   * call is caught and reported as unexpected, and the loop goes on.
   */
  function Handle(row: Row, request: Option<AuthRequest>, service: Service, k: nat): (s: Step)
    ensures s.outcome.Skipped? <==> request.None?
    ensures request.None? ==> s == Step(Skipped(row), [])
    ensures request.Some? ==>
              var auth := service.onCreateUser(k);
              && s.outcome.email == request.value.email
              && 1 <= |s.calls| <= 2
              && s.calls[0] == CreateUser(request.value)
              && (|s.calls| == 2 <==> auth.AuthOk?)
              && (|s.calls| == 2 ==> s.calls[1] == Insert(ProfilesTable, Profile(request.value, auth.userId)))
              && (s.outcome.AuthError? <==> auth.AuthFailed?)
              && (s.outcome.Created? <==> auth.AuthOk? && service.onInsert(k + 1).InsertOk?)
              && (s.outcome.ProfileError? <==> auth.AuthOk? && service.onInsert(k + 1).InsertFailed?)
    ensures request.Some? ==>
              var email := request.value.email;
              var auth := service.onCreateUser(k);
              var inserted := service.onInsert(k + 1);
              && (auth.AuthFailed? ==> s.outcome == AuthError(email, auth.message))
              && (auth.AuthThrew? ==> s.outcome == UnexpectedError(email, auth.message))
              && (auth.AuthOk? && inserted.InsertFailed? ==> s.outcome == ProfileError(email, inserted.message))
              && (auth.AuthOk? && inserted.InsertThrew? ==> s.outcome == UnexpectedError(email, inserted.message))
              && (auth.AuthOk? && inserted.InsertOk? ==> s.outcome == Created(email))
  {
    match request
    case None => Step(Skipped(row), [])
    case Some(request) =>
      var email := request.email;
      match service.onCreateUser(k)
      case AuthThrew(m) => Step(UnexpectedError(email, m), [CreateUser(request)])
      case AuthFailed(m) => Step(AuthError(email, m), [CreateUser(request)])
      case AuthOk(id) =>
        var calls := [CreateUser(request), Insert(ProfilesTable, Profile(request, id))];
        match service.onInsert(k + 1)
        case InsertThrew(m) => Step(UnexpectedError(email, m), calls)
        case InsertFailed(m) => Step(ProfileError(email, m), calls)
        case InsertOk => Step(Created(email), calls)
  }

  /** One pass of the loop body for `row`. */
  function RowStep(row: Row, service: Service, k: nat): Step
  {
    Handle(row, Prepare(row), service, k)
  }

  /** The loop body as the step of a run against `service`. */
  function Steps(service: Service): (Row, nat) -> Step
  {
    (row: Row, k: nat) => RowStep(row, service, k)
  }

  /**
   * The `try` block of the loop body for a row that passed the check: sign
   * the agent up with `request`, then insert its `profiles` record; a reply
   * or exception that ends the row early is one of the loop's `continue`s.
   */
  method SignUpAndRecord(row: Row, request: AuthRequest, backend: Backend) returns (outcome: Outcome)
    modifies backend
    ensures var s := Handle(row, Some(request), backend.service, |old(backend.calls)|);
            outcome == s.outcome && backend.calls == old(backend.calls) + s.calls
  {
    var auth := backend.CreateUser(request);
    if auth.AuthThrew? {
      return UnexpectedError(request.email, auth.message);
    }
    if auth.AuthFailed? {
      return AuthError(request.email, auth.message);
    }
    var inserted := backend.Insert(ProfilesTable, Profile(request, auth.userId));
    match inserted {
      case InsertThrew(m) => outcome := UnexpectedError(request.email, m);
      case InsertFailed(m) => outcome := ProfileError(request.email, m);
      case InsertOk => outcome := Created(request.email);
    }
  }

  /**
   * The body of the `end` handler's loop for one row, against the live
   * service; the early `return` is the loop's `continue` for a skipped row.
   */
  method ProvisionRow(row: Row, backend: Backend) returns (outcome: Outcome)
    modifies backend
    ensures var s := Steps(backend.service)(row, |old(backend.calls)|);
            outcome == s.outcome && backend.calls == old(backend.calls) + s.calls
  {
    var fullName := Cell(row, NameKey);
    var accountNumber := Cell(row, AccountKey);
    var branch := Cell(row, BranchKey);
    if !Truthy(fullName) || !Truthy(accountNumber) {
      return Skipped(row);
    }
    var email := BuildEmail(fullName.value, accountNumber.value);
    outcome := SignUpAndRecord(row, SignUp(Agent(fullName.value, accountNumber.value, branch), email), backend);
  }

  /**
   * The `end` handler's loop over the buffered rows, against the live
   * service: it logs what `Run` says, and the service receives exactly the
   * calls `Run` lists.
   */
  method ProvisionAll(rows: seq<Row>, backend: Backend) returns (log: seq<Outcome>)
    modifies backend
    ensures var t := Run(Steps(backend.service), rows, |old(backend.calls)|);
            log == t.log && backend.calls == old(backend.calls) + t.calls
  {
    ghost var before := backend.calls;
    log := [];
    for i := 0 to |rows|
      invariant var t := RunFirst(Steps(backend.service), rows, i, |before|);
                log == t.log && backend.calls == before + t.calls
    {
      ghost var calls := backend.calls;
      var outcome := ProvisionRow(rows[i], backend);
      RunFirstLoop(Steps(backend.service), rows, i, before, log, calls, outcome, backend.calls);
      log := log + [outcome];
    }
  }

  /** A prepared row makes one user-creation request, and a skipped one none. */
  lemma HandleSignsUpOnce(row: Row, request: Option<AuthRequest>, service: Service, k: nat)
    ensures CreateUserCount(Handle(row, request, service, k).calls) == (if request.Some? then 1 else 0)
  {
    var calls := Handle(row, request, service, k).calls;
    if |calls| == 2 {
      assert calls[..1] == [calls[0]] && calls[..1][..0] == [];
    } else if |calls| == 1 {
      assert calls[..0] == [];
    }
  }

  /**
   * `createUser` is called exactly once for every valid row and never for
   * a skipped one, whatever the service answers.
   */
  lemma SignUpsMatchValidRows(service: Service, rows: seq<Row>, k: nat)
    ensures CreateUserCount(Run(Steps(service), rows, k).calls) == Count(Valid, rows)
  {
    forall row, n: nat
      ensures CreateUserCount(Steps(service)(row, n).calls) == (if Valid(row) then 1 else 0)
    {
      HandleSignsUpOnce(row, Prepare(row), service, n);
    }
    RunCreateUserCount(Steps(service), rows, k, Valid);
  }

  /**
   * What a row that signs up (`signsUp`) with call `p` of the history
   * reports as `o`, given the service's replies: created exactly when both
   * the sign-up and the insert after it succeed; a profile error exactly
   * when the sign-up succeeds and the insert reports an error; an auth error
   * exactly when the sign-up reports one; an unexpected error exactly when
   * one of the two calls throws; every error carries the message of the
   * reply or exception that caused it.
   */
  predicate Answered(service: Service, signsUp: bool, p: nat, o: Outcome)
  {
    var auth := service.onCreateUser(p);
    && (o.Created? <==> signsUp && auth.AuthOk? && service.onInsert(p + 1).InsertOk?)
    && (o.ProfileError? <==> signsUp && auth.AuthOk? && service.onInsert(p + 1).InsertFailed?)
    && (o.AuthError? <==> signsUp && auth.AuthFailed?)
    && (o.UnexpectedError? <==> signsUp && (auth.AuthThrew? || (auth.AuthOk? && service.onInsert(p + 1).InsertThrew?)))
    && (signsUp && auth.AuthFailed? ==> o.message == auth.message)
    && (signsUp && auth.AuthThrew? ==> o.message == auth.message)
    && (signsUp && auth.AuthOk? && !service.onInsert(p + 1).InsertOk? ==> o.message == service.onInsert(p + 1).message)
  }

  lemma HandleAnswered(row: Row, request: Option<AuthRequest>, service: Service, p: nat)
    ensures Answered(service, request.Some?, p, Handle(row, request, service, p).outcome)
  {
  }

  /**
   * What a row reports when its sign-up is call `p` of the history: as
   * `Labelled` says, and, when it passes the check, as `Answered` says.
   */
  lemma RowOutcome(row: Row, service: Service, p: nat)
    ensures var o := RowStep(row, service, p).outcome;
            Labelled(row, o) && Answered(service, Valid(row), p, o)
  {
    HandleAnswered(row, Prepare(row), service, p);
  }

  /**
   * Every row of a run gets its own outcome, in order: the `j`-th entry of
   * the log is row `j`'s, skipped exactly when that row fails the check and
   * otherwise under its derived address, whatever happened to earlier rows.
   */
  lemma LogLabelled(service: Service, rows: seq<Row>, k: nat)
    ensures forall j :: 0 <= j < |rows| ==> Labelled(rows[j], Run(Steps(service), rows, k).log[j])
  {
    forall row, m: nat
      ensures Labelled(row, Steps(service)(row, m).outcome)
    {
      RowOutcome(row, service, m);
    }
    RunEvery(Steps(service), rows, k, Labelled);
  }

  /** Within one row, the insert comes right after the sign-up it belongs to. */
  lemma HandleProfilesFollowSignUps(row: Row, request: Option<AuthRequest>, service: Service, k: nat)
    ensures InsertsFollowSignUps(Handle(row, request, service, k).calls, service, k, ProfilesTable, Profile)
  {
  }

  /**
   * Over a whole run, every insert is the `profiles` record of the user
   * created by the sign-up just before it, with the details that sign-up
   * sent and a forced password change.
   */
  lemma ProfilesFollowSignUps(service: Service, rows: seq<Row>, k: nat)
    ensures InsertsFollowSignUps(Run(Steps(service), rows, k).calls, service, k, ProfilesTable, Profile)
  {
    forall row, m: nat
      ensures InsertsFollowSignUps(Steps(service)(row, m).calls, service, m, ProfilesTable, Profile)
    {
      HandleProfilesFollowSignUps(row, Prepare(row), service, m);
    }
    RunFirstInsertsFollowSignUps(Steps(service), rows, |rows|, k, service, ProfilesTable, Profile);
  }
}
