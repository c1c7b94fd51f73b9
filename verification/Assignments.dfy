/**
 The learner content assignment table: its rows, their states, the two
 uniqueness constraints and the running total of allocated money.
 A row is never deleted, so a row's position in the table is its identity.
 */
module Assignments {
  import opened Wrappers
  import opened Emails

  /** LMS user ids are positive database keys; the code treats 0 as "no id". */
  type LmsUserId = id: int | 0 < id witness 1

  datatype AssignmentState = Allocated | Accepted | Cancelled | Errored | Expired | Reversed

  predicate Reallocatable(state: AssignmentState) {
    state.Cancelled? || state.Errored? || state.Expired? || state.Reversed?
  }

  predicate Cancelable(state: AssignmentState) {
    state.Allocated? || state.Errored?
  }

  datatype Assignment = Assignment(
    config: nat,
    email: string,
    lms: Option<LmsUserId>,
    content: string,
    quantity: int,
    state: AssignmentState,
    batch: nat,
    preferredRun: Option<string>,
    parentKey: Option<string>,
    isRun: bool,
    allocatedAt: int,
    acceptedAt: Option<int>,
    cancelledAt: Option<int>,
    expiredAt: Option<int>,
    erroredAt: Option<int>,
    reversedAt: Option<int>)

  type Table = seq<Assignment>

  /** Two rows that violate one of the unique_together constraints. */
  predicate Clash(a: Assignment, b: Assignment) {
    && a.config == b.config
    && a.content == b.content
    && (Lower(a.email) == Lower(b.email) || (a.lms.Some? && a.lms == b.lms))
  }

  predicate UniqueKeys(t: Table) {
    forall i, j :: 0 <= i < |t| && 0 <= j < |t| && i != j ==> !Clash(t[i], t[j])
  }

  /** Model validation of a modified, not yet saved row against the stored table. */
  predicate FullClean(t: Table, i: nat, row: Assignment) {
    && row.quantity <= 0
    && forall j :: 0 <= j < |t| && j != i ==> !Clash(t[j], row)
  }

  lemma ClashingRowsAreOne(t: Table, i: nat, j: nat)
    requires UniqueKeys(t) && i < |t| && j < |t|
    ensures Clash(t[i], t[j]) ==> i == j
  {
  }

  lemma ValidRowClashesWithItself(t: Table, i: nat, row: Assignment, j: nat)
    requires FullClean(t, i, row) && i < |t| && j < |t|
    ensures Clash(t[j], row) ==> j == i
  {
  }

  predicate NonPositive(t: Table) {
    forall i :: 0 <= i < |t| ==> t[i].quantity <= 0
  }

  /** What a row contributes to the allocated total of a configuration. */
  function Weight(row: Assignment, config: nat): int {
    if row.config == config && row.state.Allocated? then row.quantity else 0
  }

  ghost function AllocatedTotal(t: Table, config: nat): int {
    if t == [] then 0 else AllocatedTotal(t[..|t| - 1], config) + Weight(t[|t| - 1], config)
  }

  /** The aggregate query behind get_allocated_quantity_for_configuration. */
  method AllocatedQuantity(t: Table, config: nat) returns (total: int)
    ensures total == AllocatedTotal(t, config)
  {
    total := 0;
    for i := 0 to |t|
      invariant total == AllocatedTotal(t[..i], config)
    {
      assert t[..i + 1][..i] == t[..i];
      total := total + Weight(t[i], config);
    }
    assert t[..|t|] == t;
  }

  lemma {:induction false} TotalOfConcat(a: Table, b: Table, config: nat)
    ensures AllocatedTotal(a + b, config) == AllocatedTotal(a, config) + AllocatedTotal(b, config)
  {
    if b == [] {
      assert a + b == a;
    } else {
      var rest := b[..|b| - 1];
      assert (a + b)[..|a + b| - 1] == a + rest;
      TotalOfConcat(a, rest, config);
    }
  }

  /** Replacing one row moves the total by the difference of the two weights. */
  lemma {:induction false} TotalOfUpdate(t: Table, i: nat, row: Assignment, config: nat)
    requires i < |t|
    ensures AllocatedTotal(t[i := row], config)
         == AllocatedTotal(t, config) - Weight(t[i], config) + Weight(row, config)
  {
    var last := |t| - 1;
    if i == last {
      assert t[i := row][..last] == t[..last];
    } else {
      assert t[i := row][..last] == t[..last][i := row];
      TotalOfUpdate(t[..last], i, row, config);
    }
  }

  lemma {:induction false} TotalIsNeverPositive(t: Table, config: nat)
    requires NonPositive(t)
    ensures AllocatedTotal(t, config) <= 0
  {
    if t != [] {
      TotalIsNeverPositive(t[..|t| - 1], config);
    }
  }
}
