/** Hard delete across the chunk table, the vector store, file storage and the document table. Each
    step may fail on its own; a failure is recorded as a dead letter and the next step goes on. */
module HardDelete {
  import opened Wrappers

  datatype Ref = Ref(doc: string, version: string)

  /** What is to be deleted: one version of a document, or all of them. */
  datatype Target = Target(doc: string, version: Option<string>)

  predicate Matches(r: Ref, t: Target) {
    r.doc == t.doc && (t.version.None? || t.version.value == r.version)
  }

  type ChunkId = string
  type Path = string

  /** archive: the rows of chunks_archive, which delete_by_doc clears along with the chunk rows;
      files: the stored originals, any number to a version. */
  datatype State = State(
    chunks: map<ChunkId, Ref>,
    archive: map<ChunkId, Ref>,
    points: set<ChunkId>,
    files: map<Path, Ref>,
    docs: set<Ref>)

  datatype Letter = ChunksFailed | PointsFailed(ids: set<ChunkId>) | StorageFailed | DocumentFailed

  /** How the steps of one run go. The chunk and document deletes are transactions, so a failed one
      changes nothing; a failed vector or storage delete may have removed some of what it was given. */
  datatype Faults = Faults(chunks: bool, points: Option<set<ChunkId>>, files: Option<set<Path>>, docs: bool)

  const NO_FAULTS := Faults(false, None, None, false)

  function Found(s: State, t: Target): set<ChunkId> {
    Matching(s.chunks, t)
  }

  function Matching<K>(rows: map<K, Ref>, t: Target): set<K> {
    set c | c in rows && Matches(rows[c], t)
  }

  function MatchingRefs(refs: set<Ref>, t: Target): set<Ref> {
    set r | r in refs && Matches(r, t)
  }

  /** The chunk ids handed on to the vector store. */
  function HandedOn(s: State, t: Target, f: Faults): set<ChunkId> {
    if f.chunks then {} else Found(s, t)
  }

  function After(s: State, t: Target, f: Faults): State {
    var ids := HandedOn(s, t, f);
    State(
      s.chunks - ids,
      if ids == {} then s.archive else s.archive - Matching(s.archive, t),
      s.points - (if f.points.None? then ids else ids * f.points.value),
      s.files - (if f.files.None? then Matching(s.files, t) else Matching(s.files, t) * f.files.value),
      s.docs - (if f.docs then {} else MatchingRefs(s.docs, t)))
  }

  function Letters(s: State, t: Target, f: Faults): seq<Letter> {
    (if f.chunks then [ChunksFailed] else [])
    + (if HandedOn(s, t, f) != {} && f.points.Some? then [PointsFailed(HandedOn(s, t, f))] else [])
    + (if f.files.Some? then [StorageFailed] else [])
    + (if f.docs then [DocumentFailed] else [])
  }

  class HardDeleteService {
    var chunks: map<ChunkId, Ref>
    var archive: map<ChunkId, Ref>
    var points: set<ChunkId>
    var files: map<Path, Ref>
    var docs: set<Ref>

    constructor (s: State)
      ensures Stores() == s
    {
      chunks, archive, points, files, docs := s.chunks, s.archive, s.points, s.files, s.docs;
    }

    function Stores(): State
      reads this
    {
      State(chunks, archive, points, files, docs)
    }

    /** delete_by_doc: one transaction that looks the chunk rows up, and deletes them and the
        archived ones only if there are any. */
    method DeleteByDoc(t: Target) returns (ids: set<ChunkId>)
      modifies this`chunks, this`archive
      ensures ids == Matching(old(chunks), t) && chunks == old(chunks) - ids
      ensures archive == if ids == {} then old(archive) else old(archive) - Matching(old(archive), t)
    {
      ids := Matching(chunks, t);
      if ids != {} {
        chunks, archive := chunks - ids, archive - Matching(archive, t);
      }
    }

    /** execute up to the chat logs: the four deletes in order, each caught on its own. */
    method Execute(t: Target, f: Faults)
      returns (letters: seq<Letter>, removedChunks: nat, removedFiles: nat, removedDocuments: nat)
      modifies this
      ensures Stores() == After(old(Stores()), t, f)
      ensures letters == Letters(old(Stores()), t, f)
      ensures removedChunks == |HandedOn(old(Stores()), t, f)|
      ensures removedFiles == if f.files.Some? then 0 else |Matching(old(files), t)|
      ensures removedDocuments == if f.docs then 0 else |MatchingRefs(old(docs), t)|
    {
      letters := [];
      ghost var start := Stores();
      var ids: set<ChunkId> := {};
      if f.chunks {
        letters := letters + [ChunksFailed];
      } else {
        ids := DeleteByDoc(t);
      }
      assert ids == HandedOn(start, t, f) && chunks == start.chunks - ids;
      removedChunks := |ids|;
      if ids != {} {
        if f.points.Some? {
          points := points - ids * f.points.value;
          letters := letters + [PointsFailed(ids)];
        } else {
          points := points - ids;
        }
      }
      if f.files.Some? {
        files := files - Matching(files, t) * f.files.value;
        letters := letters + [StorageFailed];
        removedFiles := 0;
      } else {
        removedFiles := |Matching(files, t)|;
        files := files - Matching(files, t);
      }
      if f.docs {
        letters := letters + [DocumentFailed];
        removedDocuments := 0;
      } else {
        removedDocuments := |MatchingRefs(docs, t)|;
        docs := docs - MatchingRefs(docs, t);
      }
    }
  }

  // ----- Runs -----

  /** A state, with the dead letters of all runs so far. */
  datatype Log = Log(state: State, letters: seq<Letter>)

  function Run(s: State, targets: seq<(Target, Faults)>, n: nat): Log
    requires n <= |targets|
  {
    if n == 0 then Log(s, [])
    else
      var before := Run(s, targets, n - 1);
      var (t, f) := targets[n - 1];
      Log(After(before.state, t, f), before.letters + Letters(before.state, t, f))
  }

  ghost predicate Orphan(s: State, p: ChunkId) {
    p in s.points && p !in s.chunks
  }

  ghost predicate Named(letters: seq<Letter>, p: ChunkId) {
    exists l :: l in letters && l.PointsFailed? && p in l.ids
  }

  /** An orphan made by one run is named in that run's letters. */
  lemma NewOrphanIsNamed(s: State, t: Target, f: Faults, p: ChunkId)
    requires Orphan(After(s, t, f), p) && !Orphan(s, p)
    ensures Named(Letters(s, t, f), p)
  {}

  /** Over any sequence of deletes with any failures, starting where every vector point has a chunk
      row, every point without one is named in some run's dead letters. */
  lemma {:induction false} EveryOrphanIsNamed(s: State, targets: seq<(Target, Faults)>, n: nat, p: ChunkId)
    requires n <= |targets| && s.points <= s.chunks.Keys
    requires Orphan(Run(s, targets, n).state, p)
    ensures Named(Run(s, targets, n).letters, p)
  {
    if n > 0 {
      var before := Run(s, targets, n - 1);
      var (t, f) := targets[n - 1];
      if Orphan(before.state, p) {
        EveryOrphanIsNamed(s, targets, n - 1, p);
        var l :| l in before.letters && l.PointsFailed? && p in l.ids;
        assert l in Run(s, targets, n).letters;
      } else {
        NewOrphanIsNamed(before.state, t, f, p);
        var l :| l in Letters(before.state, t, f) && l.PointsFailed? && p in l.ids;
        assert l in Run(s, targets, n).letters;
      }
    }
  }

  /** No delete, however often it is repeated and however well it goes, removes an orphan: the ids
      handed to the vector store come from chunk rows that are gone. */
  lemma {:induction false} OrphansStay(s: State, targets: seq<(Target, Faults)>, n: nat, p: ChunkId)
    requires n <= |targets| && Orphan(s, p)
    ensures Orphan(Run(s, targets, n).state, p)
  {
    if n > 0 { OrphansStay(s, targets, n - 1, p); }
  }

  /** A run without dead letters leaves no chunk row, file or document of its target. Of its vector
      points (by the document each was made for) it leaves exactly those that were orphans, and its
      archived rows it leaves exactly when it found no chunk row. */
  lemma {:induction false} CleanRun(s: State, t: Target, f: Faults, owner: map<ChunkId, Ref>)
    requires Letters(s, t, f) == []
    requires s.points <= owner.Keys && forall c :: c in s.chunks ==> c in owner && owner[c] == s.chunks[c]
    ensures var s' := After(s, t, f);
            && (forall c :: c in s'.chunks ==> !Matches(s'.chunks[c], t))
            && (forall p :: p in s'.files ==> !Matches(s'.files[p], t))
            && (forall r :: r in s'.docs ==> !Matches(r, t))
            && (forall p :: p in s'.points && Matches(owner[p], t) <==> Orphan(s, p) && Matches(owner[p], t))
            && (Matching(s'.archive, t) == if Found(s, t) == {} then Matching(s.archive, t) else {})
  {
    assert !f.chunks && f.files.None? && !f.docs;
    var ids := Found(s, t);
    assert HandedOn(s, t, f) == ids;
    assert ids == {} || f.points.None?;
    assert After(s, t, f).points == s.points - ids;
    forall p | p in s.points && p in s.chunks && Matches(owner[p], t) ensures p in ids {}
  }

  /** So a clean run leaves no vector point of its target exactly when there was no orphan of it. */
  lemma {:induction false} CleanRunLeavesNoPointIff(s: State, t: Target, f: Faults, owner: map<ChunkId, Ref>)
    requires Letters(s, t, f) == []
    requires s.points <= owner.Keys && forall c :: c in s.chunks ==> c in owner && owner[c] == s.chunks[c]
    ensures (forall p :: p in After(s, t, f).points ==> !Matches(owner[p], t))
            <==> (forall p :: Orphan(s, p) ==> !Matches(owner[p], t))
  {
    CleanRun(s, t, f, owner);
  }

  /** The archive is cleared of the target, by whatever run, exactly when there was nothing of it
      there or the run deleted chunk rows: archived rows whose chunk rows are gone are never deleted. */
  lemma {:induction false} ArchiveClearedIff(s: State, t: Target, f: Faults)
    ensures Matching(After(s, t, f).archive, t) == {} <==> Matching(s.archive, t) == {} || HandedOn(s, t, f) != {}
  {}

  /** So the archived rows of a document without chunk rows outlive any number of deletes. */
  lemma {:induction false} ArchiveStays(s: State, targets: seq<(Target, Faults)>, n: nat, a: ChunkId)
    requires n <= |targets| && a in s.archive
    requires forall c :: c in s.chunks ==> s.chunks[c].doc != s.archive[a].doc
    ensures var s' := Run(s, targets, n).state;
            && a in s'.archive && s'.archive[a] == s.archive[a]
            && forall c :: c in s'.chunks ==> s'.chunks[c].doc != s.archive[a].doc
  {
    if n > 0 { ArchiveStays(s, targets, n - 1, a); }
  }

  /** No chunk row, file or document row of these is left, nor a point that had a chunk row. */
  ghost predicate ClearedOf(s: State, s': State, these: Ref -> bool) {
    && (forall c :: c in s'.chunks ==> !these(s'.chunks[c]))
    && (forall c :: c in s.chunks && these(s.chunks[c]) ==> c !in s'.points)
    && (forall p :: p in s'.files ==> !these(s'.files[p]))
    && (forall r :: r in s'.docs ==> !these(r))
  }

  ghost predicate KeptRows<K(!new)>(rows: map<K, Ref>, rows': map<K, Ref>, but: Ref -> bool) {
    forall k :: k in rows && !but(rows[k]) ==> k in rows' && rows'[k] == rows[k]
  }

  /** Nothing is gone but what belongs to these, and nothing is new. */
  ghost predicate KeptBut(s: State, s': State, these: Ref -> bool) {
    && KeptRows(s.chunks, s'.chunks, these) && s'.chunks.Keys <= s.chunks.Keys
    && KeptRows(s.archive, s'.archive, these) && s'.archive.Keys <= s.archive.Keys
    && KeptRows(s.files, s'.files, these) && s'.files.Keys <= s.files.Keys
    && (forall c :: c in s.points && (c in s.chunks ==> !these(s.chunks[c])) ==> c in s'.points)
    && s'.points <= s.points
    && (forall r :: r in s.docs && !these(r) ==> r in s'.docs) && s'.docs <= s.docs
  }

  lemma {:induction false} MatchesOnly(t: Target, f: Faults, s: State, these: Ref -> bool)
    requires forall r :: Matches(r, t) <==> these(r)
    ensures KeptBut(s, After(s, t, f), these)
  {}

  lemma {:induction false} CleanMeansCleared(t: Target, f: Faults, s: State, these: Ref -> bool)
    requires Letters(s, t, f) == [] && forall r :: Matches(r, t) <==> these(r)
    ensures ClearedOf(s, After(s, t, f), these)
  {
    assert !f.chunks && f.files.None? && !f.docs;
    var ids := Found(s, t);
    assert HandedOn(s, t, f) == ids && (ids == {} || f.points.None?);
    assert After(s, t, f).points == s.points - ids;
  }

  /** Deleting one version: a run without dead letters clears the stores of exactly that version, and
      whatever goes wrong, everything of other documents and versions stays as it was. */
  lemma {:induction false} VersionIsDeleted(s: State, doc: string, version: string, f: Faults)
    ensures var t, these := Target(doc, Some(version)), (r: Ref) => r.doc == doc && r.version == version;
            KeptBut(s, After(s, t, f), these) && (Letters(s, t, f) == [] ==> ClearedOf(s, After(s, t, f), these))
  {
    var t, these := Target(doc, Some(version)), (r: Ref) => r.doc == doc && r.version == version;
    MatchesOnly(t, f, s, these);
    if Letters(s, t, f) == [] { CleanMeansCleared(t, f, s, these); }
  }

  /** Deleting a document without naming a version: the same, for all of its versions. */
  lemma {:induction false} DocumentIsDeleted(s: State, doc: string, f: Faults)
    ensures var t, these := Target(doc, None), (r: Ref) => r.doc == doc;
            KeptBut(s, After(s, t, f), these) && (Letters(s, t, f) == [] ==> ClearedOf(s, After(s, t, f), these))
  {
    var t, these := Target(doc, None), (r: Ref) => r.doc == doc;
    MatchesOnly(t, f, s, these);
    if Letters(s, t, f) == [] { CleanMeansCleared(t, f, s, these); }
  }

  /** A retry after a failed vector delete is clean and still leaves the point. */
  lemma {:induction false} RetryIsCleanButIncomplete(s: State, t: Target, c: ChunkId)
    requires c in s.chunks && Matches(s.chunks[c], t) && c in s.points
    ensures var failed := After(s, t, NO_FAULTS.(points := Some({})));
            Letters(s, t, NO_FAULTS.(points := Some({}))) == [PointsFailed(Found(s, t))]
            && Letters(failed, t, NO_FAULTS) == [] && c in After(failed, t, NO_FAULTS).points
  {
    var failed := After(s, t, NO_FAULTS.(points := Some({})));
    assert c in Found(s, t);
    assert Found(failed, t) == {} && failed.points == s.points;
  }

  /** Deleting one target touches no row, point, file or document of anything else. */
  lemma {:induction false} OthersUntouched(s: State, t: Target, f: Faults, c: ChunkId, r: Ref, p: Path)
    requires c in s.chunks && !Matches(s.chunks[c], t) && !Matches(r, t) && p in s.files && !Matches(s.files[p], t)
    ensures var s' := After(s, t, f);
            c in s'.chunks && s'.chunks[c] == s.chunks[c] && (c in s'.points <==> c in s.points)
            && p in s'.files && s'.files[p] == s.files[p] && (r in s'.docs <==> r in s.docs)
            && forall a :: a in s.archive && !Matches(s.archive[a], t) ==>
                 a in s'.archive && s'.archive[a] == s.archive[a]
  {}
}
