/**
 * Rows as the CSV reader hands them over (column name to cell text), the
 * header clean-up `create_profiles.js` installs, and the per-row check both
 * scripts make before provisioning an agent.
 */
module Rows {
  import opened Wrappers
  import opened JsText

  type Row = map<string, string>

  const NameKey: string := "NAME"
  const AccountKey: string := "ACCOUNT NUMBER"
  const BranchKey: string := "BRANCH"

  /** U+FEFF, the byte-order mark a spreadsheet may put before the first header. */
  const Bom: char := '\U{FEFF}'

  /**
   * The `mapHeaders` callback, `header.replace(/^\uFEFF/, "")`: one leading
   * byte-order mark is removed, anything else is left exactly as it was.
   */
  function StripBom(header: string): (r: string)
    ensures header == r || header == [Bom] + r
    ensures r != header <==> (header != [] && header[0] == Bom)
  {
    if header != [] && header[0] == Bom then header[1..] else header
  }

  /** The callback applied to every header of the file, in column order. */
  function MapHeaders(headers: seq<string>): (r: seq<string>)
    ensures |r| == |headers|
    ensures forall i :: 0 <= i < |headers| ==> r[i] == StripBom(headers[i])
  {
    if headers == [] then [] else [StripBom(headers[0])] + MapHeaders(headers[1..])
  }

  /**
   * A header that is a column name behind a byte-order mark is read as that
   * column name, so a file saved with a BOM before `NAME` still has its
   * `NAME` column found.
   */
  lemma {:induction false} MapHeadersFindsColumn(headers: seq<string>, i: nat, name: string)
    requires i < |headers| && (headers[i] == name || headers[i] == [Bom] + name)
    requires name == [] || name[0] != Bom
    ensures name in MapHeaders(headers)
    ensures MapHeaders(headers)[i] == name
  {
    var r := MapHeaders(headers);
    if headers[i] == [Bom] + name {
      assert headers[i][1..] == name;
    }
    assert r[i] == name;
  }

  /** At most one mark goes: a header behind two marks keeps one of them. */
  lemma StripBomOnce(name: string)
    ensures StripBom([Bom, Bom] + name) == [Bom] + name
  {
    assert ([Bom, Bom] + name)[1..] == [Bom] + name;
  }

  /** `row[key]?.trim()`: the trimmed cell, or nothing when the row has no such column. */
  function Cell(row: Row, key: string): (r: Option<string>)
    ensures r.Some? <==> key in row
    ensures r.Some? ==> r.value == Trim(row[key]) && Trimmed(r.value)
  {
    if key in row then Some(Trim(row[key])) else None
  }

  /** A JavaScript string-or-undefined that is truthy: present and not empty. */
  predicate Truthy(v: Option<string>)
  {
    v.Some? && v.value != []
  }

  /** A trimmed cell is truthy exactly when its column is present and not all white space. */
  lemma TruthyCell(row: Row, key: string)
    ensures Truthy(Cell(row, key)) <==> !Blank(row, key)
  {
  }

  /** The column is missing or holds only white space. */
  predicate Blank(row: Row, key: string)
  {
    key !in row || AllSpace(row[key])
  }

  /** What the loop keeps of a row it does not skip. */
  datatype Agent = Agent(fullName: string, accountNumber: string, branch: Option<string>)

  /**
   * The test `if (!fullName || !accountNumber) continue`: a row is skipped
   * exactly when its name or account number is missing or blank; the branch
   * is carried along when present and is never required.
   */
  function Validate(row: Row): (r: Option<Agent>)
    ensures r.None? <==> Blank(row, NameKey) || Blank(row, AccountKey)
    ensures r.Some? ==>
              && r.value.fullName == Trim(row[NameKey]) && r.value.fullName != []
              && r.value.accountNumber == Trim(row[AccountKey]) && r.value.accountNumber != []
              && r.value.branch == Cell(row, BranchKey)
  {
    var fullName := Cell(row, NameKey);
    var accountNumber := Cell(row, AccountKey);
    var branch := Cell(row, BranchKey);
    if !Truthy(fullName) || !Truthy(accountNumber) then None
    else Some(Agent(fullName.value, accountNumber.value, branch))
  }

  /** Whether a row is skipped does not depend on its branch column at all. */
  lemma BranchNotRequired(row: Row, branch: string)
    ensures Validate(row - {BranchKey}).Some? <==> Validate(row).Some?
    ensures Validate(row[BranchKey := branch]).Some? <==> Validate(row).Some?
  {
    assert NameKey != BranchKey && AccountKey != BranchKey;
    assert Blank(row - {BranchKey}, NameKey) == Blank(row, NameKey);
    assert Blank(row - {BranchKey}, AccountKey) == Blank(row, AccountKey);
    assert Blank(row[BranchKey := branch], NameKey) == Blank(row, NameKey);
    assert Blank(row[BranchKey := branch], AccountKey) == Blank(row, AccountKey);
  }

  /** Whether the loop goes on to provision `row` rather than skip it. */
  predicate Valid(row: Row)
  {
    Validate(row).Some?
  }

  /** How many of `rows` satisfy `p`. */
  function Count(p: Row -> bool, rows: seq<Row>): (n: nat)
    ensures n <= |rows|
  {
    if rows == [] then 0
    else Count(p, rows[..|rows| - 1]) + (if p(rows[|rows| - 1]) then 1 else 0)
  }
}
