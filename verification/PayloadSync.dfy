/** Approval changes and metadata patches of one document version, written in turn to the document
    row, to its chunk rows and to the vector payload. Any write may fail; what each store then holds
    is read off the history. */
module PayloadSync {
  import opened Wrappers

  type Key = string
  type Value = string
  type Columns = map<Key, Value>
  type ChunkId = string

  /** stored: document columns a patch may write; synced: those copied to chunks and payload. */
  datatype Layout = Layout(stored: set<Key>, synced: set<Key>, chunkColumns: set<Key>, approval: Key)

  const DOCUMENTS: Layout := Layout(
    {"title", "input_type", "source_type", "object_storage_path", "department", "doc_type", "security_level",
     "owner", "language", "valid_from", "valid_until", "tags", "metadata"},
    {"title", "department", "doc_type", "security_level", "tags", "valid_from", "valid_until"},
    {"title", "page_number", "section_title", "heading_path", "content", "content_hash", "start_char", "end_char",
     "token_count", "department", "doc_type", "security_level", "acl", "approval_status", "tags", "valid_from",
     "valid_until", "embedding_model", "embedding_version", "vector_id", "pii_warnings"},
    "approval_status")

  /** What is synced can be written everywhere; approval has its own operation. */
  ghost predicate Proper(l: Layout) {
    l.synced <= l.stored && l.synced + {l.approval} <= l.chunkColumns && l.approval !in l.stored
  }

  lemma DocumentsProper()
    ensures Proper(DOCUMENTS)
  {}

  /** Which columns of a documents row a patch writes without copying them on. */
  lemma {:induction false} WrittenNotSynced(k: Key)
    ensures k in DOCUMENTS.stored - DOCUMENTS.synced <==>
            || k == "input_type" || k == "source_type" || k == "object_storage_path" || k == "owner"
            || k == "language" || k == "metadata"
    ensures k in DOCUMENTS.synced <==>
            || k == "title" || k == "department" || k == "doc_type" || k == "security_level" || k == "tags"
            || k == "valid_from" || k == "valid_until"
    ensures DOCUMENTS.approval == "approval_status"
  {}

  datatype State = State(doc: Option<Columns>, chunks: map<ChunkId, Columns>, payload: map<ChunkId, Columns>)

  /** How the writes after the document row go: the chunk rows raise, the payload write fails after
      landing on some points (which is only logged), or all is well. */
  datatype Fate = ChunksFail | PayloadFails(landed: set<ChunkId>) | AllWell

  datatype Op = Approve(status: Value, fate: Fate) | Patch(patch: Columns, accepted: bool, fate: Fate)

  function Restrict(m: Columns, keys: set<Key>): Columns {
    map k | k in m && k in keys :: m[k]
  }

  /** What an operation writes to the document row. */
  function DocWrites(l: Layout, op: Op): Columns {
    match op
    case Approve(status, _) => map[l.approval := status]
    case Patch(patch, accepted, _) => if accepted then Restrict(patch, l.stored) else map[]
  }

  /** What it copies to the chunk rows and the payload. */
  function SyncWrites(l: Layout, op: Op): Columns {
    match op
    case Approve(status, _) => map[l.approval := status]
    case Patch(patch, accepted, _) => if accepted then Restrict(patch, l.synced) else map[]
  }

  function WriteRows(rows: map<ChunkId, Columns>, ids: set<ChunkId>, writes: Columns): map<ChunkId, Columns> {
    map c | c in rows :: if c in ids then rows[c] + writes else rows[c]
  }

  function PayloadIds(s: State, fate: Fate): set<ChunkId> {
    match fate
    case ChunksFail => {}
    case PayloadFails(landed) => s.chunks.Keys * landed
    case AllWell => s.chunks.Keys
  }

  function After(l: Layout, s: State, op: Op): State {
    if s.doc.None? then s
    else
      State(
        Some(s.doc.value + DocWrites(l, op)),
        if op.fate.ChunksFail? then s.chunks
        else WriteRows(s.chunks, s.chunks.Keys, Restrict(SyncWrites(l, op), l.chunkColumns)),
        WriteRows(s.payload, PayloadIds(s, op.fate), SyncWrites(l, op)))
  }

  class DocumentSync {
    const layout: Layout
    var doc: Option<Columns>
    var chunks: map<ChunkId, Columns>
    var payload: map<ChunkId, Columns>

    constructor (layout: Layout, s: State)
      ensures this.layout == layout && Stores() == s
    {
      this.layout := layout;
      doc, chunks, payload := s.doc, s.chunks, s.payload;
    }

    function Stores(): State
      reads this
    {
      State(doc, chunks, payload)
    }

    /** The common tail: chunk rows first, payload only if they went through. */
    method SyncChunks(writes: Columns, fate: Fate)
      modifies this`chunks, this`payload
      ensures chunks == if fate.ChunksFail? then old(chunks)
                         else WriteRows(old(chunks), old(chunks).Keys, Restrict(writes, layout.chunkColumns))
      ensures payload == WriteRows(old(payload), PayloadIds(old(Stores()), fate), writes)
    {
      var ids := chunks.Keys;
      if fate.ChunksFail? {
        assert payload == WriteRows(payload, {}, writes);
        return;
      }
      chunks := WriteRows(chunks, ids, Restrict(writes, layout.chunkColumns));
      payload := WriteRows(payload, if fate.AllWell? then ids else ids * fate.landed, writes);
    }

    method SetApproval(status: Value, fate: Fate) returns (found: bool)
      modifies this
      ensures Stores() == After(layout, old(Stores()), Approve(status, fate)) && found == old(doc).Some?
    {
      if doc.None? { return false; }
      doc := Some(doc.value[layout.approval := status]);
      assert doc.value == old(doc).value + map[layout.approval := status];
      SyncChunks(map[layout.approval := status], fate);
      found := true;
    }

    /** accepted: whether the merged view passed validation. */
    method Update(patch: Columns, accepted: bool, fate: Fate) returns (found: bool)
      modifies this
      ensures Stores() == After(layout, old(Stores()), Patch(patch, accepted, fate)) && found == old(doc).Some?
    {
      if doc.None? { return false; }
      found := true;
      if !accepted {
        NothingWritten(layout, Stores(), patch, fate);
        return;
      }
      doc := Some(doc.value + Restrict(patch, layout.stored));
      var writes := Restrict(patch, layout.synced);
      if writes != map[] {
        SyncChunks(writes, fate);
      } else {
        EmptyWrites(chunks, chunks.Keys, layout.chunkColumns);
        EmptyWrites(payload, PayloadIds(old(Stores()), fate), layout.chunkColumns);
      }
    }
  }

  lemma EmptyWrites(rows: map<ChunkId, Columns>, ids: set<ChunkId>, columns: set<Key>)
    ensures Restrict(map[], columns) == map[] && WriteRows(rows, ids, map[]) == rows
  {
    forall c | c in rows ensures rows[c] + map[] == rows[c] {}
    assert forall c :: c in rows ==> WriteRows(rows, ids, map[])[c] == rows[c];
  }

  lemma NothingWritten(l: Layout, s: State, patch: Columns, fate: Fate)
    ensures After(l, s, Patch(patch, false, fate)) == s
  {
    if s.doc.Some? {
      assert s.doc.value + map[] == s.doc.value;
      EmptyWrites(s.chunks, s.chunks.Keys, l.chunkColumns);
      EmptyWrites(s.payload, PayloadIds(s, fate), l.chunkColumns);
    }
  }

  // ----- Reading the stores off the history -----

  function Run(l: Layout, s: State, ops: seq<Op>, n: nat): State
    requires n <= |ops|
  {
    if n == 0 then s else After(l, Run(l, s, ops, n - 1), ops[n - 1])
  }

  /** The latest of the first n operations that wrote the key, among those that count. */
  function LastWriter(l: Layout, ops: seq<Op>, n: nat, k: Key, counts: Op -> bool): Option<nat>
    requires n <= |ops|
  {
    if n == 0 then None
    else if k in SyncWrites(l, ops[n - 1]) && counts(ops[n - 1]) then Some(n - 1)
    else LastWriter(l, ops, n - 1, k, counts)
  }

  ghost predicate Synced(l: Layout, k: Key) {
    k in l.synced || k == l.approval
  }

  /** A document with every chunk and point holding a value for the key. */
  ghost predicate Holds(s: State, k: Key) {
    && s.doc.Some? && k in s.doc.value && s.payload.Keys == s.chunks.Keys
    && (forall c :: c in s.chunks ==> k in s.chunks[c] && k in s.payload[c])
  }

  ghost predicate Agrees(s: State, k: Key) {
    Holds(s, k) && forall c :: c in s.chunks ==> s.chunks[c][k] == s.doc.value[k] && s.payload[c][k] == s.doc.value[k]
  }

  function Any(): Op -> bool { (op: Op) => true }

  function Reached(): Op -> bool { (op: Op) => !op.fate.ChunksFail? }

  /** The payload of this point was written, in full or before a failure. */
  function Landed(c: ChunkId): Op -> bool {
    (op: Op) => op.fate.AllWell? || (op.fate.PayloadFails? && c in op.fate.landed)
  }

  /** One key of one chunk, in the three stores. */
  datatype Cell = Cell(doc: Value, chunk: Value, payload: Value)

  function CellOf(s: State, k: Key, c: ChunkId): Cell
    requires s.doc.Some? && k in s.doc.value && c in s.chunks && k in s.chunks[c] && c in s.payload && k in s.payload[c]
  {
    Cell(s.doc.value[k], s.chunks[c][k], s.payload[c][k])
  }

  function CellAfter(cell: Cell, w: Columns, fate: Fate, k: Key, c: ChunkId): Cell {
    if k !in w then cell
    else match fate
      case ChunksFail => cell.(doc := w[k])
      case PayloadFails(landed) => Cell(w[k], w[k], if c in landed then w[k] else cell.payload)
      case AllWell => Cell(w[k], w[k], w[k])
  }

  function CellRun(l: Layout, cell: Cell, ops: seq<Op>, n: nat, k: Key, c: ChunkId): Cell
    requires n <= |ops|
  {
    if n == 0 then cell
    else CellAfter(CellRun(l, cell, ops, n - 1, k, c), SyncWrites(l, ops[n - 1]), ops[n - 1].fate, k, c)
  }

  lemma {:induction false} StepHolds(l: Layout, s: State, op: Op, k: Key)
    requires Holds(s, k)
    ensures Holds(After(l, s, op), k) && After(l, s, op).chunks.Keys == s.chunks.Keys
  {}

  lemma {:induction false} ChunkStep(l: Layout, s: State, op: Op, k: Key, c: ChunkId)
    requires Proper(l) && Synced(l, k) && Holds(s, k) && c in s.chunks
    ensures var s', w := After(l, s, op), SyncWrites(l, op);
            c in s'.chunks && k in s'.chunks[c]
            && s'.chunks[c][k] == if k in w && !op.fate.ChunksFail? then w[k] else s.chunks[c][k]
  {}

  lemma {:induction false} PayloadStep(l: Layout, s: State, op: Op, k: Key, c: ChunkId)
    requires Holds(s, k) && c in s.chunks
    ensures var s', w := After(l, s, op), SyncWrites(l, op);
            c in s'.payload && k in s'.payload[c]
            && s'.payload[c][k] == if k in w && c in PayloadIds(s, op.fate) then w[k] else s.payload[c][k]
  {}

  lemma {:induction false} DocStep(l: Layout, s: State, op: Op, k: Key)
    requires Proper(l) && Synced(l, k) && Holds(s, k)
    ensures var s', w := After(l, s, op), SyncWrites(l, op);
            s'.doc.Some? && k in s'.doc.value && s'.doc.value[k] == if k in w then w[k] else s.doc.value[k]
  {}

  ghost predicate Tracks(s: State, k: Key, c: ChunkId, cell: Cell) {
    Holds(s, k) && c in s.chunks && CellOf(s, k, c) == cell
  }

  lemma {:induction false} OneStep(l: Layout, s: State, op: Op, k: Key, c: ChunkId, cell: Cell)
    requires Proper(l) && Synced(l, k) && Tracks(s, k, c, cell)
    ensures Tracks(After(l, s, op), k, c, CellAfter(cell, SyncWrites(l, op), op.fate, k, c))
  {
    StepHolds(l, s, op, k);
    DocStep(l, s, op, k);
    ChunkStep(l, s, op, k, c);
    PayloadStep(l, s, op, k, c);
  }

  /** Each synced key of each chunk evolves on its own. */
  lemma {:induction false} RunByCells(l: Layout, s: State, ops: seq<Op>, n: nat, k: Key, c: ChunkId, cell: Cell)
    requires Proper(l) && Synced(l, k) && Tracks(s, k, c, cell) && n <= |ops|
    ensures Tracks(Run(l, s, ops, n), k, c, CellRun(l, cell, ops, n, k, c))
  {
    if n > 0 {
      RunByCells(l, s, ops, n - 1, k, c, cell);
      OneStep(l, Run(l, s, ops, n - 1), ops[n - 1], k, c, CellRun(l, cell, ops, n - 1, k, c));
    }
  }

  function ValueOf(l: Layout, ops: seq<Op>, n: nat, k: Key, counts: Op -> bool, initial: Value): Value
    requires n <= |ops|
  {
    LastWriterWrites(l, ops, n, k, counts);
    var w := LastWriter(l, ops, n, k, counts);
    if w.Some? then SyncWrites(l, ops[w.value])[k] else initial
  }

  lemma {:induction false} LastWriterWrites(l: Layout, ops: seq<Op>, n: nat, k: Key, counts: Op -> bool)
    requires n <= |ops|
    ensures var w := LastWriter(l, ops, n, k, counts);
            w.Some? ==> w.value < n && k in SyncWrites(l, ops[w.value]) && counts(ops[w.value])
  {
    if n > 0 { LastWriterWrites(l, ops, n - 1, k, counts); }
  }

  lemma {:induction false} CellsFollowHistory(l: Layout, cell: Cell, ops: seq<Op>, n: nat, k: Key, c: ChunkId)
    requires n <= |ops|
    ensures CellRun(l, cell, ops, n, k, c).doc == ValueOf(l, ops, n, k, Any(), cell.doc)
    ensures CellRun(l, cell, ops, n, k, c).chunk == ValueOf(l, ops, n, k, Reached(), cell.chunk)
    ensures CellRun(l, cell, ops, n, k, c).payload == ValueOf(l, ops, n, k, Landed(c), cell.payload)
  {
    if n > 0 { CellsFollowHistory(l, cell, ops, n - 1, k, c); }
  }

  /** For every history the document holds what the last operation wrote, a chunk row what the last
      operation that got through to the chunk rows wrote, and its payload what the last operation
      that landed on it wrote, key by key. */
  lemma {:induction false} StoresFollowHistory(l: Layout, s: State, ops: seq<Op>, n: nat, k: Key, c: ChunkId)
    requires Proper(l) && Synced(l, k) && Holds(s, k) && n <= |ops| && c in s.chunks
    ensures Holds(Run(l, s, ops, n), k) && c in Run(l, s, ops, n).chunks
    ensures Run(l, s, ops, n).doc.value[k] == ValueOf(l, ops, n, k, Any(), s.doc.value[k])
    ensures Run(l, s, ops, n).chunks[c][k] == ValueOf(l, ops, n, k, Reached(), s.chunks[c][k])
    ensures Run(l, s, ops, n).payload[c][k] == ValueOf(l, ops, n, k, Landed(c), s.payload[c][k])
  {
    RunByCells(l, s, ops, n, k, c, CellOf(s, k, c));
    CellsFollowHistory(l, CellOf(s, k, c), ops, n, k, c);
  }

  /** The value that the last accepted patch of this column, or the last approval, gave it. */
  function LastDocValue(l: Layout, ops: seq<Op>, n: nat, k: Key): Option<Value>
    requires n <= |ops|
  {
    if n == 0 then None
    else
      match ops[n - 1]
      case Approve(status, _) => if k == l.approval then Some(status) else LastDocValue(l, ops, n - 1, k)
      case Patch(patch, accepted, _) =>
        if accepted && k in l.stored && k in patch then Some(patch[k]) else LastDocValue(l, ops, n - 1, k)
  }

  /** Every column of the document row, synced or not, holds what was last written to it. */
  lemma {:induction false} DocumentFollowsHistory(l: Layout, s: State, ops: seq<Op>, n: nat, k: Key)
    requires n <= |ops| && s.doc.Some?
    ensures Run(l, s, ops, n).doc.Some?
    ensures var row, last := Run(l, s, ops, n).doc.value, LastDocValue(l, ops, n, k);
            if last.Some? then k in row && row[k] == last.value
            else SameAt(s.doc.value, row, k)
  {
    if n > 0 {
      DocumentFollowsHistory(l, s, ops, n - 1, k);
      DocumentStep(l, Run(l, s, ops, n - 1), ops[n - 1], k);
    }
  }

  lemma {:induction false} DocumentStep(l: Layout, s: State, op: Op, k: Key)
    requires s.doc.Some?
    ensures After(l, s, op).doc.Some?
    ensures var row, row' := s.doc.value, After(l, s, op).doc.value;
            if op.Approve? && k == l.approval then k in row' && row'[k] == op.status
            else if op.Patch? && op.accepted && k in l.stored && k in op.patch then k in row' && row'[k] == op.patch[k]
            else SameAt(row, row', k)
  {}

  ghost predicate SameAt(row: Columns, row': Columns, k: Key) {
    (k in row' <==> k in row) && (k in row ==> row'[k] == row[k])
  }

  /** A column that is neither synced nor the approval stays as it was in chunk rows and payload. */
  lemma {:induction false} UnsyncedStays(l: Layout, s: State, ops: seq<Op>, n: nat, k: Key, c: ChunkId)
    requires n <= |ops| && k !in l.synced && k != l.approval
    ensures var s' := Run(l, s, ops, n);
            && (c in s'.chunks <==> c in s.chunks) && (c in s'.payload <==> c in s.payload)
            && (c in s.chunks ==> SameAt(s.chunks[c], s'.chunks[c], k))
            && (c in s.payload ==> SameAt(s.payload[c], s'.payload[c], k))
  {
    if n > 0 { UnsyncedStays(l, s, ops, n - 1, k, c); }
  }

  /** The last of the first n operations to write the key, if any, fared as asked. */
  ghost predicate LastWriteWas(l: Layout, ops: seq<Op>, n: nat, k: Key, counts: Op -> bool, good: Op -> bool)
    requires n <= |ops|
  {
    var w := LastWriter(l, ops, n, k, counts);
    w.Some? ==> w.value < |ops| && good(ops[w.value])
  }

  lemma {:induction false} CellsAgree(l: Layout, cell: Cell, ops: seq<Op>, n: nat, k: Key, c: ChunkId)
    requires n <= |ops|
    ensures cell.chunk == cell.doc && LastWriteWas(l, ops, n, k, Any(), Reached()) ==>
              CellRun(l, cell, ops, n, k, c).chunk == CellRun(l, cell, ops, n, k, c).doc
    ensures cell.payload == cell.chunk && LastWriteWas(l, ops, n, k, Reached(), Perfect()) ==>
              CellRun(l, cell, ops, n, k, c).payload == CellRun(l, cell, ops, n, k, c).chunk
  {
    if n > 0 { CellsAgree(l, cell, ops, n - 1, k, c); }
  }

  function Perfect(): Op -> bool { (op: Op) => op.fate.AllWell? }

  /** From an agreeing start, document and chunk rows agree on a synced key whenever the last write
      of that key got through to the chunk rows, in particular when no chunk write ever raised; and
      the payload agrees with the chunk rows whenever the last payload write of the key succeeded,
      whatever failed before. */
  lemma {:induction false} StoresAgree(l: Layout, s: State, ops: seq<Op>, n: nat, k: Key, c: ChunkId)
    requires Proper(l) && Synced(l, k) && Agrees(s, k) && n <= |ops| && c in s.chunks
    ensures Holds(Run(l, s, ops, n), k) && c in Run(l, s, ops, n).chunks
    ensures LastWriteWas(l, ops, n, k, Any(), Reached()) ==>
              Run(l, s, ops, n).chunks[c][k] == Run(l, s, ops, n).doc.value[k]
    ensures LastWriteWas(l, ops, n, k, Reached(), Perfect()) ==>
              Run(l, s, ops, n).payload[c][k] == Run(l, s, ops, n).chunks[c][k]
  {
    RunByCells(l, s, ops, n, k, c, CellOf(s, k, c));
    CellsAgree(l, CellOf(s, k, c), ops, n, k, c);
  }

  /** A chunk write that raises leaves the document ahead of its chunks. */
  lemma {:induction false} ChunkFailureSplitsStores(l: Layout, s: State, status: Value, c: ChunkId)
    requires Proper(l) && Agrees(s, l.approval) && c in s.chunks && status != s.doc.value[l.approval]
    ensures var s' := After(l, s, Approve(status, ChunksFail));
            s'.doc.value[l.approval] == status && s'.chunks[c][l.approval] != status
  {}
}
