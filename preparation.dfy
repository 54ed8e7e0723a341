/**
 * The part of the loop body both scripts share, before the service is
 * called: the row check, the derived address and the sign-up request.
 */
module Preparation {
  import opened Wrappers
  import opened Rows
  import opened EmailDerivation
  import opened Provisioning
  import opened JsText

  /**
   * What the loop makes of a row before it calls the service: nothing when
   * the row is skipped, otherwise the user-creation request for its agent
   * under the address derived from the agent's name and account number.
   */
  function Prepare(row: Row): Option<AuthRequest>
  {
    match Validate(row)
    case None => None
    case Some(agent) => Some(SignUp(agent, BuildEmail(agent.fullName, agent.accountNumber)))
  }

  /**
   * A row is prepared exactly when it passes the check, and then into the
   * request `createUser` is sent: the address derived from the trimmed name
   * and account number, the default password, an auto-confirmed address,
   * and the trimmed name, branch and account number as user metadata.
   */
  lemma PreparedRequest(row: Row)
    ensures Prepare(row).Some? <==> !Blank(row, NameKey) && !Blank(row, AccountKey)
    ensures Prepare(row).Some? ==>
              var fullName := Trim(row[NameKey]);
              var accountNumber := Trim(row[AccountKey]);
              Prepare(row).value
                == AuthRequest(BuildEmail(fullName, accountNumber), DefaultPassword, true,
                               fullName, Cell(row, BranchKey), accountNumber)
  {
  }

  /**
   * The row a skipped outcome names, and the address any other outcome
   * names: a skipped row is reported as itself, any other under the address
   * derived from its name and account number.
   */
  predicate Labelled(row: Row, o: Outcome)
  {
    var agent := Validate(row);
    && (o.Skipped? <==> agent.None?)
    && (o.Skipped? ==> o.row == row)
    && (agent.Some? ==> o.email == BuildEmail(agent.value.fullName, agent.value.accountNumber))
  }
}
