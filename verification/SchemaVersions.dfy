/** Concurrent PUTs of one domain's input schema: every transaction of insert_new_active as a
    sequence of steps over the committed rows, the row locks of SELECT ... FOR UPDATE and the
    unique index on (domain, version), under READ COMMITTED. */
module SchemaVersions {
  import opened Wrappers

  datatype Status = Active | Deprecated

  /** A committed row: its status and the transaction whose schema it stores. */
  datatype Row = Row(status: Status, author: nat)

  /** Where a transaction stands.
      Scanning: the statement snapshot was taken and these active rows are still to be tried.
      Read:     FOR UPDATE returned this row (and holds its lock), or no row.
      Ready:    the base version matched and the old row, if any, is marked deprecated.
      Inserted: the new row is in the unique index, not yet committed. */
  datatype Phase =
    | Idle
    | Scanning(candidates: set<nat>)
    | Read(current: Option<nat>)
    | Ready(current: Option<nat>)
    | Inserted(current: Option<nat>)
    | Done(version: nat)
    | Aborted

  datatype Tx = Tx(base: Option<int>, phase: Phase)

  datatype State = State(rows: map<nat, Row>, txs: seq<Tx>)

  function NewVersion(current: Option<nat>): nat {
    (match current case Some(v) => v case None => 0) + 1
  }

  function ActiveVersions(rows: map<nat, Row>): set<nat> {
    set v | v in rows && rows[v].status == Active
  }

  ghost predicate IsMax(v: nat, s: set<nat>) {
    v in s && forall w :: w in s ==> w <= v
  }

  /** get_active: the active row with the highest version. */
  ghost predicate ReadsActive(rows: map<nat, Row>, result: Option<nat>) {
    match result
    case None => ActiveVersions(rows) == {}
    case Some(v) => IsMax(v, ActiveVersions(rows))
  }

  predicate HasRead(phase: Phase) {
    phase.Read? || phase.Ready? || phase.Inserted?
  }

  predicate Holder(tx: Tx) {
    HasRead(tx.phase) && tx.phase.current.Some?
  }

  predicate HoldsLock(tx: Tx, v: nat) {
    Holder(tx) && tx.phase.current.value == v
  }

  ghost predicate Unlocked(s: State, v: nat) {
    forall i :: 0 <= i < |s.txs| ==> !HoldsLock(s.txs[i], v)
  }

  /** No other transaction has this version in the index uncommitted; while one has, an INSERT of
      the same version waits, so its step is not enabled. */
  ghost predicate IndexFree(s: State, v: nat) {
    forall i :: 0 <= i < |s.txs| && s.txs[i].phase.Inserted? ==> NewVersion(s.txs[i].phase.current) != v
  }

  function Move(s: State, i: nat, phase: Phase): State
    requires i < |s.txs|
  {
    s.(txs := s.txs[i := s.txs[i].(phase := phase)])
  }

  // ----- Steps -----

  /** The SELECT takes its snapshot: the active rows committed at this instant. */
  ghost predicate Snapshot(s: State, i: nat, s': State) {
    i < |s.txs| && s.txs[i].phase.Idle? && s' == Move(s, i, Scanning(ActiveVersions(s.rows)))
  }

  ghost predicate ScanEmpty(s: State, i: nat, s': State) {
    i < |s.txs| && s.txs[i].phase == Scanning({}) && s' == Move(s, i, Read(None))
  }

  /** The best remaining candidate is locked once nobody holds it; its status is looked at again
      in its newest committed form, and a row no longer active is dropped from the result. */
  ghost predicate TryCandidate(s: State, i: nat, s': State) {
    && i < |s.txs| && s.txs[i].phase.Scanning?
    && exists v :: IsMax(v, s.txs[i].phase.candidates) && Unlocked(s, v)
          && s' == if v in ActiveVersions(s.rows)
                   then Move(s, i, Read(Some(v)))
                   else Move(s, i, Scanning(s.txs[i].phase.candidates - {v}))
  }

  predicate BaseMatches(base: Option<int>, current: Option<nat>) {
    match (base, current)
    case (None, None) => true
    case (Some(b), Some(v)) => b == v
    case _ => false
  }

  ghost predicate Compare(s: State, i: nat, s': State) {
    && i < |s.txs| && s.txs[i].phase.Read?
    && var current := s.txs[i].phase.current;
       s' == Move(s, i, if BaseMatches(s.txs[i].base, current) then Ready(current) else Aborted)
  }

  /** INSERT: a committed row with that version is an integrity error, reported as a conflict. */
  ghost predicate Insert(s: State, i: nat, s': State) {
    && i < |s.txs| && s.txs[i].phase.Ready?
    && var current := s.txs[i].phase.current;
       && IndexFree(s, NewVersion(current))
       && s' == Move(s, i, if NewVersion(current) in s.rows then Aborted else Inserted(current))
  }

  function Deprecate(rows: map<nat, Row>, current: Option<nat>): map<nat, Row> {
    match current
    case Some(v) => if v in rows then rows[v := rows[v].(status := Deprecated)] else rows
    case None => rows
  }

  ghost predicate Commit(s: State, i: nat, s': State) {
    && i < |s.txs| && s.txs[i].phase.Inserted?
    && var current := s.txs[i].phase.current;
       var version := NewVersion(current);
       s' == Move(s, i, Done(version)).(rows := Deprecate(s.rows, current)[version := Row(Active, i)])
  }

  /** A transaction may die at any moment before its commit. */
  ghost predicate Abort(s: State, i: nat, s': State) {
    i < |s.txs| && !s.txs[i].phase.Done? && s' == Move(s, i, Aborted)
  }

  /** Another PUT arrives with any base version. */
  ghost predicate Begin(s: State, s': State) {
    exists base: Option<int> :: s' == s.(txs := s.txs + [Tx(base, Idle)])
  }

  ghost predicate TxStep(s: State, i: nat, s': State) {
    || Snapshot(s, i, s') || ScanEmpty(s, i, s') || TryCandidate(s, i, s') || Compare(s, i, s')
    || Insert(s, i, s') || Commit(s, i, s') || Abort(s, i, s')
  }

  ghost predicate Next(s: State, s': State) {
    Begin(s, s') || exists i: nat :: TxStep(s, i, s')
  }

  ghost predicate IsRun(run: seq<State>) {
    && run != [] && run[0] == State(map[], [])
    && forall k :: 0 <= k < |run| - 1 ==> Next(run[k], run[k + 1])
  }

  // ----- What a transaction does next -----

  /** The active rows of this instant are the candidates; without any, no row is read. */
  lemma {:induction false} StepOfReader(s: State, i: nat) returns (s': State)
    requires i < |s.txs| && (s.txs[i].phase.Idle? || s.txs[i].phase == Scanning({}))
    ensures TxStep(s, i, s') && s'.rows == s.rows && |s'.txs| == |s.txs|
    ensures if s.txs[i].phase.Idle? then s'.txs[i].phase == Scanning(set v | v in s.rows && s.rows[v].status.Active?)
            else s'.txs[i].phase == Read(None)
  {
    s' := Move(s, i, if s.txs[i].phase.Idle? then Scanning(ActiveVersions(s.rows)) else Read(None));
    assert ActiveVersions(s.rows) == set v | v in s.rows && s.rows[v].status.Active?;
    assert Snapshot(s, i, s') || ScanEmpty(s, i, s');
  }

  /** The highest candidate is read if it is still active and dropped if not, as soon as no other
      transaction has read it and not yet ended. */
  lemma {:induction false} StepOfLocker(s: State, i: nat, v: nat) returns (s': State)
    requires i < |s.txs| && s.txs[i].phase.Scanning? && v in s.txs[i].phase.candidates
    requires forall w :: w in s.txs[i].phase.candidates ==> w <= v
    requires forall j :: 0 <= j < |s.txs| ==>
               var p := s.txs[j].phase; (p.Read? || p.Ready? || p.Inserted?) ==> p.current != Some(v)
    ensures TxStep(s, i, s') && s'.rows == s.rows && |s'.txs| == |s.txs|
    ensures s'.txs[i].phase == if v in s.rows && s.rows[v].status == Active then Read(Some(v))
                               else Scanning(s.txs[i].phase.candidates - {v})
  {
    var candidates := s.txs[i].phase.candidates;
    assert IsMax(v, candidates) && Unlocked(s, v);
    s' := if v in ActiveVersions(s.rows) then Move(s, i, Read(Some(v))) else Move(s, i, Scanning(candidates - {v}));
    assert TryCandidate(s, i, s');
  }

  /** A transaction goes on exactly if the version it read is the base it was given; then it inserts
      the next version unless that is committed already, waiting for an uncommitted one. */
  lemma {:induction false} StepOfWriter(s: State, i: nat) returns (s': State)
    requires i < |s.txs| && (s.txs[i].phase.Read? || s.txs[i].phase.Ready?)
    requires s.txs[i].phase.Ready? ==>
               forall j :: 0 <= j < |s.txs| && s.txs[j].phase.Inserted? ==>
                 NewVersion(s.txs[j].phase.current) != NewVersion(s.txs[i].phase.current)
    ensures TxStep(s, i, s') && s'.rows == s.rows && |s'.txs| == |s.txs|
    ensures var tx, current := s.txs[i], s.txs[i].phase.current;
            var version := if current.Some? then current.value + 1 else 1;
            var same := if current.Some? then tx.base.Some? && tx.base.value == current.value else tx.base.None?;
            s'.txs[i].phase ==
            if tx.phase.Read? then (if same then Ready(current) else Aborted)
            else if version in s.rows then Aborted else Inserted(current)
  {
    var tx, current := s.txs[i], s.txs[i].phase.current;
    s' := Move(s, i, if tx.phase.Read? then (if BaseMatches(tx.base, current) then Ready(current) else Aborted)
                     else if NewVersion(current) in s.rows then Aborted else Inserted(current));
    assert Compare(s, i, s') || Insert(s, i, s');
  }

  /** A commit adds the next version as active, deprecates the row that was read, and leaves every
      other row as it was. */
  lemma {:induction false} StepOfCommitter(s: State, i: nat) returns (s': State)
    requires i < |s.txs| && s.txs[i].phase.Inserted?
    requires s.txs[i].phase.current.Some? ==> s.txs[i].phase.current.value in s.rows
    ensures Commit(s, i, s') && |s'.txs| == |s.txs|
    ensures var current := s.txs[i].phase.current;
            var version := if current.Some? then current.value + 1 else 1;
            && s'.txs[i].phase == Done(version)
            && s'.rows.Keys == s.rows.Keys + {version} && s'.rows[version] == Row(Active, i)
            && (current.Some? ==> s'.rows[current.value] == Row(Deprecated, s.rows[current.value].author))
            && forall v :: v in s.rows && v != version && current != Some(v) ==> s'.rows[v] == s.rows[v]
  {
    var current := s.txs[i].phase.current;
    var version := NewVersion(current);
    s' := Move(s, i, Done(version)).(rows := Deprecate(s.rows, current)[version := Row(Active, i)]);
  }

  // ----- The invariant -----

  /** Versions 1..n are stored, only n is active, and n is the number of rows. */
  ghost predicate Consecutive(rows: map<nat, Row>) {
    forall v: nat :: (v in rows <==> 1 <= v <= |rows|) && (v in rows ==> (rows[v].status == Active <==> v == |rows|))
  }

  ghost predicate LockedIsLatest(s: State) {
    forall i :: 0 <= i < |s.txs| && Holder(s.txs[i]) ==> s.txs[i].phase.current.value == |s.rows| && |s.rows| > 0
  }

  ghost predicate LocksExclusive(s: State) {
    forall i, j | 0 <= i < |s.txs| && 0 <= j < |s.txs| && Holder(s.txs[i]) && Holder(s.txs[j]) ::
      s.txs[i].phase.current == s.txs[j].phase.current ==> i == j
  }

  ghost predicate InsertsNext(s: State) {
    forall i :: 0 <= i < |s.txs| && s.txs[i].phase.Inserted? ==> NewVersion(s.txs[i].phase.current) == |s.rows| + 1
  }

  ghost predicate InsertExclusive(s: State) {
    forall i, j | 0 <= i < |s.txs| && 0 <= j < |s.txs| ::
      s.txs[i].phase.Inserted? && s.txs[j].phase.Inserted? ==> i == j
  }

  ghost predicate CheckedBase(s: State) {
    forall i :: 0 <= i < |s.txs| && (s.txs[i].phase.Ready? || s.txs[i].phase.Inserted?)
      ==> BaseMatches(s.txs[i].base, s.txs[i].phase.current)
  }

  /** The base a transaction must have named to become the author of this version. */
  function Predecessor(version: nat): Option<int> {
    if version <= 1 then None else Some(version - 1)
  }

  /** Rows and successful transactions correspond one to one, and the author of every version
      named its immediate predecessor as base. */
  ghost predicate Authored(s: State) {
    && (forall v :: v in s.rows ==> s.rows[v].author < |s.txs| && s.txs[s.rows[v].author].phase == Done(v)
                                    && s.txs[s.rows[v].author].base == Predecessor(v))
    && (forall i :: 0 <= i < |s.txs| && s.txs[i].phase.Done?
          ==> s.txs[i].phase.version in s.rows && s.rows[s.txs[i].phase.version].author == i)
  }

  ghost predicate Inv(s: State) {
    && Consecutive(s.rows) && LockedIsLatest(s) && LocksExclusive(s) && InsertsNext(s)
    && InsertExclusive(s) && CheckedBase(s) && Authored(s)
  }

  lemma CommitKeepsRows(rows: map<nat, Row>, current: Option<nat>, author: nat)
    requires Consecutive(rows)
    requires current.Some? ==> current.value == |rows| && |rows| > 0
    requires NewVersion(current) == |rows| + 1
    ensures Consecutive(Deprecate(rows, current)[NewVersion(current) := Row(Active, author)])
    ensures |Deprecate(rows, current)[NewVersion(current) := Row(Active, author)]| == |rows| + 1
  {}

  /** A step that leaves the rows alone keeps the invariant when what the moved transaction now
      claims is true of the rows and claimed by nobody else. */
  lemma MoveKeepsInv(s: State, i: nat, phase: Phase)
    requires Inv(s) && i < |s.txs| && !s.txs[i].phase.Done? && !phase.Done?
    requires HasRead(phase) && phase.current.Some? ==> phase.current.value == |s.rows| && |s.rows| > 0
    requires HasRead(phase) && phase.current.Some? ==>
               forall j :: 0 <= j < |s.txs| && j != i ==> !HoldsLock(s.txs[j], phase.current.value)
    requires phase.Ready? || phase.Inserted? ==> BaseMatches(s.txs[i].base, phase.current)
    requires phase.Inserted? ==> NewVersion(phase.current) == |s.rows| + 1
    requires phase.Inserted? ==> forall j :: 0 <= j < |s.txs| && j != i ==> !s.txs[j].phase.Inserted?
    ensures Inv(Move(s, i, phase))
  {
    var s' := Move(s, i, phase);
    assert forall j :: 0 <= j < |s.txs| && j != i ==> s'.txs[j] == s.txs[j];
    MoveKeepsAuthors(s, i, phase);
    MoveKeepsLocks(s, i, phase);
    assert InsertsNext(s') && InsertExclusive(s') && CheckedBase(s');
  }

  lemma MoveKeepsLocks(s: State, i: nat, phase: Phase)
    requires LockedIsLatest(s) && LocksExclusive(s) && i < |s.txs|
    requires HasRead(phase) && phase.current.Some? ==> phase.current.value == |s.rows| && |s.rows| > 0
    requires HasRead(phase) && phase.current.Some? ==>
               forall j :: 0 <= j < |s.txs| && j != i ==> !HoldsLock(s.txs[j], phase.current.value)
    ensures LockedIsLatest(Move(s, i, phase)) && LocksExclusive(Move(s, i, phase))
  {}

  lemma MoveKeepsAuthors(s: State, i: nat, phase: Phase)
    requires Authored(s) && i < |s.txs| && !s.txs[i].phase.Done? && !phase.Done?
    ensures Authored(Move(s, i, phase))
  {}

  lemma TryCandidateKeepsInv(s: State, i: nat, s': State)
    requires Inv(s) && TryCandidate(s, i, s')
    ensures Inv(s')
  {
    var v :| IsMax(v, s.txs[i].phase.candidates) && Unlocked(s, v)
             && s' == if v in ActiveVersions(s.rows)
                      then Move(s, i, Read(Some(v)))
                      else Move(s, i, Scanning(s.txs[i].phase.candidates - {v}));
    MoveKeepsInv(s, i, if v in ActiveVersions(s.rows) then Read(Some(v))
        else Scanning(s.txs[i].phase.candidates - {v}));
  }

  lemma CompareKeepsInv(s: State, i: nat, s': State)
    requires Inv(s) && Compare(s, i, s')
    ensures Inv(s')
  {
    var current := s.txs[i].phase.current;
    if current.Some? { assert HoldsLock(s.txs[i], current.value); }
    MoveKeepsInv(s, i, if BaseMatches(s.txs[i].base, current) then Ready(current) else Aborted);
  }

  /** A transaction that read no row inserts version 1, so it succeeds only while there is none. */
  lemma InsertKeepsInv(s: State, i: nat, s': State)
    requires Inv(s) && Insert(s, i, s')
    ensures Inv(s')
  {
    var current := s.txs[i].phase.current;
    if NewVersion(current) in s.rows {
      MoveKeepsInv(s, i, Aborted);
    } else {
      if current.Some? { assert HoldsLock(s.txs[i], current.value); }
      assert NewVersion(current) == |s.rows| + 1;
      MoveKeepsInv(s, i, Inserted(current));
    }
  }

  /** When nobody holds a lock or an index entry, the claims about locks hold trivially. */
  lemma QuietInv(s: State)
    requires Consecutive(s.rows) && Authored(s) && CheckedBase(s)
    requires forall j :: 0 <= j < |s.txs| ==> !Holder(s.txs[j]) && !s.txs[j].phase.Inserted?
    ensures Inv(s)
  {}

  lemma CommitKeepsAuthors(s: State, i: nat, s': State, current: Option<nat>)
    requires Authored(s) && Commit(s, i, s') && s.txs[i].phase == Inserted(current)
    requires BaseMatches(s.txs[i].base, current) && (current.Some? ==> current.value > 0)
    requires NewVersion(current) !in s.rows
    ensures Authored(s')
  {
    var version := NewVersion(current);
    assert s'.rows.Keys == s.rows.Keys + {version};
    assert s.txs[i].base == Predecessor(version);
    forall v | v in s.rows
      ensures s'.rows[v].author == s.rows[v].author && s.rows[v].author != i
    {
      assert s.txs[s.rows[v].author].phase == Done(v);
    }
  }

  lemma CommitterFacts(s: State, i: nat, current: Option<nat>)
    requires Inv(s) && i < |s.txs| && s.txs[i].phase == Inserted(current)
    ensures current.Some? ==> current.value == |s.rows| && |s.rows| > 0
    ensures NewVersion(current) == |s.rows| + 1 && NewVersion(current) !in s.rows
    ensures BaseMatches(s.txs[i].base, current)
  {}

  lemma CommitIsQuiet(s: State, i: nat, s': State)
    requires Inv(s) && Commit(s, i, s')
    ensures CheckedBase(s')
    ensures forall j :: 0 <= j < |s'.txs| ==> !Holder(s'.txs[j]) && !s'.txs[j].phase.Inserted?
  {}

  lemma CommitKeepsInv(s: State, i: nat, s': State)
    requires Inv(s) && Commit(s, i, s')
    ensures Inv(s')
  {
    var current := s.txs[i].phase.current;
    CommitterFacts(s, i, current);
    CommitKeepsRows(s.rows, current, i);
    CommitKeepsAuthors(s, i, s', current);
    CommitIsQuiet(s, i, s');
    QuietInv(s');
  }

  lemma StepKeepsInv(s: State, i: nat, s': State)
    requires Inv(s) && TxStep(s, i, s')
    ensures Inv(s')
  {
    if Commit(s, i, s') {
      CommitKeepsInv(s, i, s');
    } else if TryCandidate(s, i, s') {
      TryCandidateKeepsInv(s, i, s');
    } else if Compare(s, i, s') {
      CompareKeepsInv(s, i, s');
    } else if Insert(s, i, s') {
      InsertKeepsInv(s, i, s');
    } else {
      MoveKeepsInv(s, i, s'.txs[i].phase);
    }
  }

  lemma BeginKeepsInv(s: State, s': State)
    requires Inv(s) && Begin(s, s')
    ensures Inv(s')
  {
    assert s'.txs[|s.txs|].phase.Idle?;
    assert forall i :: 0 <= i < |s'.txs| && !s'.txs[i].phase.Idle? ==> i < |s.txs| && s'.txs[i] == s.txs[i];
    BeginKeepsLocks(s, s');
    assert InsertsNext(s') && InsertExclusive(s') && CheckedBase(s');
    BeginKeepsAuthors(s, s');
  }

  lemma BeginKeepsLocks(s: State, s': State)
    requires LockedIsLatest(s) && LocksExclusive(s) && s'.rows == s.rows
    requires forall i :: 0 <= i < |s'.txs| && !s'.txs[i].phase.Idle? ==> i < |s.txs| && s'.txs[i] == s.txs[i]
    ensures LockedIsLatest(s') && LocksExclusive(s')
  {}

  lemma BeginKeepsAuthors(s: State, s': State)
    requires Authored(s) && s'.rows == s.rows && |s.txs| <= |s'.txs|
    requires forall i :: 0 <= i < |s.txs| ==> s'.txs[i] == s.txs[i]
    requires forall i :: |s.txs| <= i < |s'.txs| ==> s'.txs[i].phase.Idle?
    ensures Authored(s')
  {}

  lemma NextKeepsInv(s: State, s': State)
    requires Inv(s) && Next(s, s')
    ensures Inv(s')
  {
    if Begin(s, s') {
      BeginKeepsInv(s, s');
    } else {
      var i: nat :| TxStep(s, i, s');
      StepKeepsInv(s, i, s');
    }
  }

  lemma {:induction false} RunKeepsInv(run: seq<State>, k: nat)
    requires IsRun(run) && k < |run|
    ensures Inv(run[k])
  {
    if k > 0 {
      RunKeepsInv(run, k - 1);
      NextKeepsInv(run[k - 1], run[k]);
    }
  }

  // ----- What every run guarantees -----

  /** In every reachable state the stored versions are exactly 1..n and n alone is active, so
      get_active reads the newest version, or nothing when there is none. */
  lemma VersionsAreConsecutive(run: seq<State>, k: nat, read: Option<nat>)
    requires IsRun(run) && k < |run| && ReadsActive(run[k].rows, read)
    ensures Consecutive(run[k].rows)
    ensures read == if |run[k].rows| == 0 then None else Some(|run[k].rows|)
  {
    RunKeepsInv(run, k);
    var n := |run[k].rows|;
    if n > 0 { assert n in ActiveVersions(run[k].rows); }
  }

  /** A PUT that reports version v stored exactly that row and had named v's immediate predecessor;
      of all PUTs that name the same base at most one ever succeeds. */
  lemma NoLostUpdate(run: seq<State>, k: nat, i: nat, j: nat)
    requires IsRun(run) && k < |run|
    requires i < |run[k].txs| && j < |run[k].txs|
    requires run[k].txs[i].phase.Done? && run[k].txs[j].phase.Done?
    ensures var v := run[k].txs[i].phase.version;
            v in run[k].rows && run[k].rows[v].author == i && run[k].txs[i].base == Predecessor(v)
    ensures run[k].txs[i].base == run[k].txs[j].base ==> i == j
  {
    RunKeepsInv(run, k);
    var v, w := run[k].txs[i].phase.version, run[k].txs[j].phase.version;
    assert v in run[k].rows && w in run[k].rows;
    assert 1 <= v && 1 <= w;
  }

  lemma OnlyCommitWrites(s: State, i: nat, s': State)
    requires TxStep(s, i, s') && !Commit(s, i, s')
    ensures s'.rows == s.rows
  {}

  lemma CommitKeepsHistory(s: State, i: nat, s': State, v: nat)
    requires Commit(s, i, s') && v in s.rows && NewVersion(s.txs[i].phase.current) !in s.rows
    ensures v in s'.rows && s'.rows[v].author == s.rows[v].author
    ensures s.rows[v].status == Deprecated ==> s'.rows[v].status == Deprecated
  {}

  lemma StepKeepsHistory(s: State, s': State, v: nat)
    requires Inv(s) && Next(s, s') && v in s.rows
    ensures v in s'.rows && s'.rows[v].author == s.rows[v].author
    ensures s.rows[v].status == Deprecated ==> s'.rows[v].status == Deprecated
  {
    if !Begin(s, s') {
      var i: nat :| TxStep(s, i, s');
      if Commit(s, i, s') {
        assert NewVersion(s.txs[i].phase.current) == |s.rows| + 1;
        CommitKeepsHistory(s, i, s', v);
      } else {
        OnlyCommitWrites(s, i, s');
      }
    }
  }

  lemma RunStepKeepsHistory(run: seq<State>, k: nat, v: nat)
    requires IsRun(run) && k + 1 < |run| && v in run[k].rows
    ensures v in run[k + 1].rows && run[k + 1].rows[v].author == run[k].rows[v].author
    ensures run[k].rows[v].status == Deprecated ==> run[k + 1].rows[v].status == Deprecated
  {
    RunKeepsInv(run, k);
    StepKeepsHistory(run[k], run[k + 1], v);
  }

  /** A committed schema is never overwritten, never removed and never reactivated. */
  lemma {:induction false} HistoryIsPermanent(run: seq<State>, k: nat, m: nat, v: nat)
    requires IsRun(run) && k <= m < |run| && v in run[k].rows
    ensures v in run[m].rows && run[m].rows[v].author == run[k].rows[v].author
    ensures run[k].rows[v].status == Deprecated ==> run[m].rows[v].status == Deprecated
    decreases m
  {
    if k < m {
      HistoryIsPermanent(run, k, m - 1, v);
      RunStepKeepsHistory(run, m - 1, v);
    }
  }

  /** A reader that was blocked and came back with no row, although versions exist, passes the base
      check when its caller named no base; whatever it does next, it does not commit. */
  lemma BlockedReaderCannotCommit(run: seq<State>, k: nat, i: nat, s': State)
    requires IsRun(run) && k < |run| && i < |run[k].txs|
    requires run[k].txs[i].phase == Ready(None) && run[k].rows != map[]
    requires TxStep(run[k], i, s')
    ensures s'.txs[i].phase == Aborted && s'.rows == run[k].rows
  {
    RunKeepsInv(run, k);
    assert |run[k].rows| > 0;
    assert 1 in run[k].rows;
  }

  // ----- A blocked reader -----

  ghost predicate IsPath(path: seq<State>) {
    path != [] && forall j, k :: 0 <= j && k == j + 1 < |path| ==> Next(path[j], path[k])
  }

  /** Paths that meet are one path. */
  lemma {:induction false} Joined(p: seq<State>, q: seq<State>) returns (path: seq<State>)
    requires IsPath(p) && IsPath(q) && p[|p| - 1] == q[0]
    ensures IsPath(path) && path[0] == p[0] && path[|path| - 1] == q[|q| - 1]
  {
    path := p + q[1..];
    forall j, k | 0 <= j && k == j + 1 < |path| ensures Next(path[j], path[k]) {
      if k < |p| { assert Next(p[j], p[k]); } else { assert Next(q[j + 1 - |p|], q[k + 1 - |p|]); }
    }
  }

  /** A transaction that finds no row becomes the author of version 1. */
  lemma {:induction false} FirstVersion() returns (path: seq<State>)
    ensures IsPath(path) && path[0] == State(map[], [])
    ensures path[|path| - 1] == State(map[1 := Row(Active, 0)], [Tx(None, Done(1))])
  {
    var none: map<nat, Row> := map[];
    var x0, x1, x2 := State(none, []), State(none, [Tx(None, Idle)]), State(none, [Tx(None, Scanning({}))]);
    var x3, x4 := State(none, [Tx(None, Read(None))]), State(none, [Tx(None, Ready(None))]);
    var x5, x6 := State(none, [Tx(None, Inserted(None))]), State(map[1 := Row(Active, 0)], [Tx(None, Done(1))]);
    assert ActiveVersions(none) == {};
    assert Begin(x0, x1);
    assert Snapshot(x1, 0, x2) && ScanEmpty(x2, 0, x3) && Compare(x3, 0, x4) && Insert(x4, 0, x5) && Commit(x5, 0, x6);
    assert TxStep(x1, 0, x2) && TxStep(x2, 0, x3) && TxStep(x3, 0, x4) && TxStep(x4, 0, x5) && TxStep(x5, 0, x6);
    path := [x0, x1, x2, x3, x4, x5, x6];
  }

  /** A second transaction locks version 1 and passes the base check. */
  lemma {:induction false} LockVersion(rows: map<nat, Row>, first: Tx) returns (path: seq<State>)
    requires ActiveVersions(rows) == {1} && !Holder(first)
    ensures IsPath(path) && path[0] == State(rows, [first])
    ensures path[|path| - 1] == State(rows, [first, Tx(Some(1), Ready(Some(1)))])
  {
    var x0, x1 := State(rows, [first]), State(rows, [first, Tx(Some(1), Idle)]);
    var x2, x3 := State(rows, [first, Tx(Some(1), Scanning({1}))]), State(rows, [first, Tx(Some(1), Read(Some(1)))]);
    var x4 := State(rows, [first, Tx(Some(1), Ready(Some(1)))]);
    assert Begin(x0, x1);
    assert IsMax(1, {1}) && Unlocked(x2, 1) && 1 in ActiveVersions(rows);
    assert Snapshot(x1, 1, x2) && TryCandidate(x2, 1, x3) && Compare(x3, 1, x4);
    assert TxStep(x1, 1, x2) && TxStep(x2, 1, x3) && TxStep(x3, 1, x4);
    path := [x0, x1, x2, x3, x4];
  }

  /** A third one, without a base, has version 1 in its snapshot when the second commits. */
  lemma {:induction false} Overtaken(rows: map<nat, Row>, first: Tx) returns (path: seq<State>)
    requires ActiveVersions(rows) == {1} && 2 !in rows && !first.phase.Inserted?
    ensures IsPath(path) && path[0] == State(rows, [first, Tx(Some(1), Ready(Some(1)))])
    ensures path[|path| - 1] == State(Deprecate(rows, Some(1))[2 := Row(Active, 1)],
                                      [first, Tx(Some(1), Done(2)), Tx(None, Scanning({1}))])
  {
    var second, third := Tx(Some(1), Ready(Some(1))), Tx(None, Scanning({1}));
    var x0, x1 := State(rows, [first, second]), State(rows, [first, second, Tx(None, Idle)]);
    var x2, x3 := State(rows, [first, second, third]), State(rows, [first, Tx(Some(1), Inserted(Some(1))), third]);
    var x4 := State(Deprecate(rows, Some(1))[2 := Row(Active, 1)], [first, Tx(Some(1), Done(2)), third]);
    assert Begin(x0, x1);
    assert Snapshot(x1, 2, x2) && Insert(x2, 1, x3) && Commit(x3, 1, x4);
    assert TxStep(x1, 2, x2) && TxStep(x2, 1, x3) && TxStep(x3, 1, x4);
    path := [x0, x1, x2, x3, x4];
  }

  /** Version 1 is no longer active, so the third transaction reads no row. */
  lemma {:induction false} ReadsNothing(rows: map<nat, Row>, first: Tx, second: Tx) returns (path: seq<State>)
    requires 1 !in ActiveVersions(rows) && !Holder(first) && !Holder(second)
    ensures IsPath(path) && path[0] == State(rows, [first, second, Tx(None, Scanning({1}))])
    ensures path[|path| - 1] == State(rows, [first, second, Tx(None, Ready(None))])
  {
    var x0 := State(rows, [first, second, Tx(None, Scanning({1}))]);
    var x1 := State(rows, [first, second, Tx(None, Scanning({}))]);
    var x2 := State(rows, [first, second, Tx(None, Read(None))]);
    var x3 := State(rows, [first, second, Tx(None, Ready(None))]);
    assert IsMax(1, {1}) && Unlocked(x0, 1) && {1} - {1} == {};
    assert TryCandidate(x0, 2, x1) && ScanEmpty(x1, 2, x2) && Compare(x2, 2, x3);
    assert TxStep(x0, 2, x1) && TxStep(x1, 2, x2) && TxStep(x2, 2, x3);
    path := [x0, x1, x2, x3];
  }

  /** A run in which a reader that was overtaken passes the base check with no row although two
      versions are committed; BlockedReaderCannotCommit says what becomes of it. */
  lemma {:induction false} BlockedReaderPassesBaseCheck() returns (run: seq<State>)
    ensures IsRun(run)
    ensures var last := run[|run| - 1];
            |last.txs| == 3 && last.txs[2].phase == Ready(None) && last.rows.Keys == {1, 2}
  {
    var rows, first, second := map[1 := Row(Active, 0)], Tx(None, Done(1)), Tx(Some(1), Done(2));
    assert ActiveVersions(rows) == {1};
    var after := Deprecate(rows, Some(1))[2 := Row(Active, 1)];
    assert 1 in after && after[1].status == Deprecated;
    var p0 := FirstVersion();
    var p1 := LockVersion(rows, first);
    var p2 := Overtaken(rows, first);
    var p3 := ReadsNothing(after, first, second);
    run := Joined(p0, p1);
    run := Joined(run, p2);
    run := Joined(run, p3);
  }
}
