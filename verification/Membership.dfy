/** Who is admitted to a domain: membership rows written by assign and revoke, and by the
    just-in-time enrolment of open domains, read by every request. */
module Membership {
  import opened Wrappers

  type User = string
  type Domain = string
  type Pair = (User, Domain)

  datatype Row = Row(active: bool, clearance: string)

  datatype Policy = Open | Assigned

  datatype State = State(rows: map<Pair, Row>, policies: map<Domain, Policy>)

  /** Admitted with a clearance, or refused for want of membership. */
  datatype Decision = Admitted(clearance: string) | Refused

  /** A request comes after the token checks; global: the token carries an admin or auditor role;
      persisted: whether the enrolment row, if one is due, could be written. */
  datatype Op =
    | Assign(user: User, domain: Domain, clearance: string)
    | Revoke(user: User, domain: Domain)
    | Request(user: User, domain: Domain, global: bool, persisted: bool)
    | SetPolicy(domain: Domain, policy: Policy)

  predicate IsActive(s: State, u: User, d: Domain) {
    (u, d) in s.rows && s.rows[(u, d)].active
  }

  predicate IsOpen(s: State, d: Domain) {
    d in s.policies && s.policies[d] == Open
  }

  /** A new row starts as an ordinary one; an existing row is only made active again. */
  function Enrol(s: State, u: User, d: Domain): State {
    var row := if (u, d) in s.rows then s.rows[(u, d)] else Row(false, "internal");
    s.(rows := s.rows[(u, d) := row.(active := true)])
  }

  predicate Enrols(s: State, op: Op) {
    op.Request? && !IsActive(s, op.user, op.domain) && !op.global && IsOpen(s, op.domain)
  }

  function After(s: State, op: Op): State {
    match op
    case Assign(u, d, clearance) => s.(rows := s.rows[(u, d) := Row(true, clearance)])
    case Revoke(u, d) => if IsActive(s, u, d) then s.(rows := s.rows[(u, d) := s.rows[(u, d)].(active := false)]) else s
    case Request(u, d, _, persisted) => if Enrols(s, op) && persisted then Enrol(s, u, d) else s
    case SetPolicy(d, p) => s.(policies := s.policies[d := p])
  }

  function Decide(s: State, u: User, d: Domain, global: bool): Decision {
    if IsActive(s, u, d) then Admitted(s.rows[(u, d)].clearance)
    else if global then Admitted("secret")
    else if IsOpen(s, d) then Admitted("internal")
    else Refused
  }

  class MembershipTable {
    var rows: map<Pair, Row>
    var policies: map<Domain, Policy>

    constructor (s: State)
      ensures Contents() == s
    {
      rows, policies := s.rows, s.policies;
    }

    function Contents(): State
      reads this
    {
      State(rows, policies)
    }

    method Assign(u: User, d: Domain, clearance: string)
      modifies this`rows
      ensures Contents() == After(old(Contents()), Op.Assign(u, d, clearance))
    {
      rows := rows[(u, d) := Row(true, clearance)];
    }

    /** Reports whether there was an active membership to revoke. */
    method Revoke(u: User, d: Domain) returns (revoked: bool)
      modifies this`rows
      ensures Contents() == After(old(Contents()), Op.Revoke(u, d))
      ensures revoked == IsActive(old(Contents()), u, d) && !IsActive(Contents(), u, d)
    {
      if (u, d) !in rows || !rows[(u, d)].active { return false; }
      rows := rows[(u, d) := rows[(u, d)].(active := false)];
      revoked := true;
    }

    method LoadMembership(u: User, d: Domain) returns (row: Option<Row>)
      ensures row == if IsActive(Contents(), u, d) then Some(rows[(u, d)]) else None
    {
      row := if (u, d) in rows && rows[(u, d)].active then Some(rows[(u, d)]) else None;
    }

    method CreateJit(u: User, d: Domain, persisted: bool)
      modifies this`rows
      ensures Contents() == if persisted then Enrol(old(Contents()), u, d) else old(Contents())
    {
      if persisted {
        rows := rows[(u, d) := if (u, d) in rows then rows[(u, d)].(active := true) else Row(true, "internal")];
      }
    }

    /** verify_and_extract from the membership look-up onward. */
    method Verify(u: User, d: Domain, global: bool, persisted: bool) returns (decision: Decision)
      modifies this`rows
      ensures decision == Decide(old(Contents()), u, d, global)
      ensures Contents() == After(old(Contents()), Request(u, d, global, persisted))
    {
      var row := LoadMembership(u, d);
      if row.Some? { return Admitted(row.value.clearance); }
      if global { return Admitted("secret"); }
      if d in policies && policies[d] == Open {
        CreateJit(u, d, persisted);
        return Admitted("internal");
      }
      return Refused;
    }
  }

  // ----- Histories -----

  function Run(s: State, ops: seq<Op>, n: nat): State
    requires n <= |ops|
  {
    if n == 0 then s else After(Run(s, ops, n - 1), ops[n - 1])
  }

  /** Whether the domain is open after the first n operations. */
  function OpenAfter(s: State, ops: seq<Op>, n: nat, d: Domain): bool
    requires n <= |ops|
  {
    if n == 0 then IsOpen(s, d)
    else if ops[n - 1].SetPolicy? && ops[n - 1].domain == d then ops[n - 1].policy == Open
    else OpenAfter(s, ops, n - 1, d)
  }

  /** What last settled this pair's row: an assignment or a revocation, or a plain request made
      while the domain was open, whose enrolment could be written. */
  function LastSettled(s: State, ops: seq<Op>, n: nat, u: User, d: Domain): Option<bool>
    requires n <= |ops|
  {
    if n == 0 then None
    else
      match ops[n - 1]
      case Assign(u', d', _) => if (u', d') == (u, d) then Some(true) else LastSettled(s, ops, n - 1, u, d)
      case Revoke(u', d') => if (u', d') == (u, d) then Some(false) else LastSettled(s, ops, n - 1, u, d)
      case Request(u', d', global, persisted) =>
        if (u', d') == (u, d) && !global && persisted && OpenAfter(s, ops, n - 1, d) then Some(true)
        else LastSettled(s, ops, n - 1, u, d)
      case SetPolicy(_, _) => LastSettled(s, ops, n - 1, u, d)
  }

  lemma {:induction false} OpenByHistory(s: State, ops: seq<Op>, n: nat, d: Domain)
    requires n <= |ops|
    ensures IsOpen(Run(s, ops, n), d) == OpenAfter(s, ops, n, d)
  {
    if n > 0 { OpenByHistory(s, ops, n - 1, d); }
  }

  /** After every history, whatever the policies were, a row is active exactly as it was last
      settled. */
  lemma {:induction false} ActiveAsLastSettled(s: State, ops: seq<Op>, n: nat, u: User, d: Domain)
    requires n <= |ops|
    ensures var last := LastSettled(s, ops, n, u, d);
            IsActive(Run(s, ops, n), u, d) <==> if last.Some? then last.value else IsActive(s, u, d)
  {
    if n > 0 {
      ActiveAsLastSettled(s, ops, n - 1, u, d);
      OpenByHistory(s, ops, n - 1, d);
    }
  }

  /** After every history a plain user is admitted exactly when the domain is open or the user's
      row was last settled as active. */
  lemma {:induction false} AdmittedByHistory(s: State, ops: seq<Op>, n: nat, u: User, d: Domain)
    requires n <= |ops| && !IsActive(s, u, d)
    ensures Decide(Run(s, ops, n), u, d, false).Admitted? <==>
            OpenAfter(s, ops, n, d) || LastSettled(s, ops, n, u, d) == Some(true)
  {
    ActiveAsLastSettled(s, ops, n, u, d);
    OpenByHistory(s, ops, n, d);
  }

  /** The clearance of the pair's row, if there is one: that of the last assignment, or the ordinary
      one when the row came from an enrolment. */
  function LastClearance(s: State, ops: seq<Op>, n: nat, u: User, d: Domain): Option<string>
    requires n <= |ops|
  {
    if n == 0 then if (u, d) in s.rows then Some(s.rows[(u, d)].clearance) else None
    else
      var before := LastClearance(s, ops, n - 1, u, d);
      match ops[n - 1]
      case Assign(u', d', clearance) => if (u', d') == (u, d) then Some(clearance) else before
      case Request(u', d', global, persisted) =>
        if (u', d') == (u, d) && !global && persisted && OpenAfter(s, ops, n - 1, d) && before.None?
          then Some("internal") else before
      case _ => before
  }

  lemma {:induction false} ClearanceByHistory(s: State, ops: seq<Op>, n: nat, u: User, d: Domain)
    requires n <= |ops|
    ensures var rows := Run(s, ops, n).rows;
            LastClearance(s, ops, n, u, d) == if (u, d) in rows then Some(rows[(u, d)].clearance) else None
  {
    if n > 0 {
      ClearanceByHistory(s, ops, n - 1, u, d);
      OpenByHistory(s, ops, n - 1, d);
    }
  }

  /** After every history: a row last settled as active is admitted with its clearance, whatever the
      roles; without one, an admin or auditor is admitted for everything, a plain user as an ordinary
      one if the domain is open, and nobody else. */
  lemma {:induction false} DecisionByHistory(s: State, ops: seq<Op>, n: nat, u: User, d: Domain, global: bool)
    requires n <= |ops|
    ensures var last, decision := LastSettled(s, ops, n, u, d), Decide(Run(s, ops, n), u, d, global);
            var active := if last.Some? then last.value else (u, d) in s.rows && s.rows[(u, d)].active;
            && (active ==> LastClearance(s, ops, n, u, d).Some?
                           && decision == Admitted(LastClearance(s, ops, n, u, d).value))
            && (!active && global ==> decision == Admitted("secret"))
            && (!active && !global && OpenAfter(s, ops, n, d) ==> decision == Admitted("internal"))
            && (!active && !global && !OpenAfter(s, ops, n, d) ==> decision == Refused)
  {
    ActiveAsLastSettled(s, ops, n, u, d);
    ClearanceByHistory(s, ops, n, u, d);
    OpenByHistory(s, ops, n, d);
  }

  /** Enrolment outlives the open policy: whoever asked while the domain was open is admitted after
      it is set to assigned, for as long as no revocation follows. */
  lemma {:induction false} EnrolmentOutlivesOpenPolicy(s: State, ops: seq<Op>, i: nat, u: User, d: Domain)
    requires i < |ops| && ops[i] == Request(u, d, false, true) && OpenAfter(s, ops, i, d)
    requires forall k :: i < k < |ops| ==> ops[k] != Revoke(u, d)
    ensures Decide(Run(s, ops, |ops|), u, d, false).Admitted?
  {
    SettledUntilRevoked(s, ops, i, |ops|, u, d);
    ActiveAsLastSettled(s, ops, |ops|, u, d);
  }

  lemma {:induction false} SettledUntilRevoked(s: State, ops: seq<Op>, i: nat, n: nat, u: User, d: Domain)
    requires i < n <= |ops| && ops[i] == Request(u, d, false, true) && OpenAfter(s, ops, i, d)
    requires forall k :: i < k < n ==> ops[k] != Revoke(u, d)
    ensures LastSettled(s, ops, n, u, d) == Some(true)
    decreases n
  {
    if i + 1 < n { SettledUntilRevoked(s, ops, i, n - 1, u, d); }
  }

  /** The last assignment or revocation of this pair. */
  function LastDecision(ops: seq<Op>, n: nat, u: User, d: Domain): Option<bool>
    requires n <= |ops|
  {
    if n == 0 then None
    else
      match ops[n - 1]
      case Assign(u', d', _) => if (u', d') == (u, d) then Some(true) else LastDecision(ops, n - 1, u, d)
      case Revoke(u', d') => if (u', d') == (u, d) then Some(false) else LastDecision(ops, n - 1, u, d)
      case _ => LastDecision(ops, n - 1, u, d)
  }

  ghost predicate NeverOpened(s: State, ops: seq<Op>, n: nat, d: Domain)
    requires n <= |ops|
  {
    !IsOpen(s, d) && forall k :: 0 <= k < n ==> ops[k] != SetPolicy(d, Open)
  }

  lemma {:induction false} StaysClosed(s: State, ops: seq<Op>, n: nat, u: User, d: Domain)
    requires n <= |ops| && NeverOpened(s, ops, n, d)
    ensures !OpenAfter(s, ops, n, d) && LastSettled(s, ops, n, u, d) == LastDecision(ops, n, u, d)
  {
    if n > 0 { StaysClosed(s, ops, n - 1, u, d); }
  }

  /** On a domain that is never open, after any history of assignments, revocations and requests a
      plain user is admitted exactly when the last decision about that user was an assignment. */
  lemma {:induction false} AdmittedIffAssigned(s: State, ops: seq<Op>, n: nat, u: User, d: Domain)
    requires n <= |ops| && NeverOpened(s, ops, n, d) && !IsActive(s, u, d)
    ensures Decide(Run(s, ops, n), u, d, false).Admitted? <==> LastDecision(ops, n, u, d) == Some(true)
  {
    AdmittedByHistory(s, ops, n, u, d);
    StaysClosed(s, ops, n, u, d);
  }

  /** There requests write nothing at all. */
  lemma {:induction false} RequestsDoNotEnrol(s: State, ops: seq<Op>, n: nat, u: User, d: Domain, global: bool,
      persisted: bool)
    requires n <= |ops| && NeverOpened(s, ops, n, d)
    ensures After(Run(s, ops, n), Request(u, d, global, persisted)) == Run(s, ops, n)
  {
    StaysClosed(s, ops, n, u, d);
    OpenByHistory(s, ops, n, d);
  }

  /** On an open domain a revocation lasts until the user's next request, which is admitted and
      makes the row active again. */
  lemma {:induction false} OpenDomainUndoesRevoke(s: State, u: User, d: Domain)
    requires IsOpen(s, d)
    ensures var revoked := After(s, Op.Revoke(u, d));
            && !IsActive(revoked, u, d) && Decide(revoked, u, d, false) == Admitted("internal")
            && IsActive(After(revoked, Request(u, d, false, true)), u, d)
  {}
}
