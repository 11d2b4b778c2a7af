/** The paged re-verification of chat logs. The page size shrinks on the last page while the page
    number keeps counting, and the reader turns both into an offset; this module says which rows
    are visited, and when they are the ones asked for. */
module CitationReverify {

  datatype Outcome = NoCitations | Raised | Applied | NotApplied

  datatype Summary = Summary(scanned: nat, updated: nat, skipped: nat, failures: nat)

  function Min(a: int, b: int): int { if a <= b then a else b }

  function Max(a: int, b: int): int { if a <= b then b else a }

  /** Rows from one position up to another. */
  function Rows(from: nat, upto: int): (rows: seq<nat>)
    ensures |rows| == Max(0, upto - from) && forall k :: 0 <= k < |rows| ==> rows[k] == from + k
    decreases upto - from
  {
    if upto <= from then [] else [from] + Rows(from + 1, upto)
  }

  /** list_by_tenant over a log that does not change: LIMIT size OFFSET (page - 1) * size, with the
      page and the size clamped to sensible values. */
  function Page(total: nat, page: int, size: int): seq<nat> {
    var p, s := Max(1, page), Max(1, Min(size, 100));
    Rows((p - 1) * s, Min((p - 1) * s + s, total))
  }

  /** A page starts behind the pages before it, is at most as long as asked for and never longer than
      a hundred rows; a page or size below one counts as one. */
  lemma {:induction false} PageMeaning(total: nat, page: int, size: int, k: nat)
    requires k < |Page(total, page, size)|
    ensures k < 100 && (k < size || k == 0)
    ensures Page(total, page, size)[k] < total
    ensures var p := if page < 1 then 1 else page;
            && (size < 1 ==> Page(total, page, size)[k] == p - 1 + k)
            && (1 <= size <= 100 ==> Page(total, page, size)[k] == (p - 1) * size + k)
            && (100 < size ==> Page(total, page, size)[k] == (p - 1) * 100 + k)
  {}

  /** A page of a sensible size is full unless the log ends before it does. */
  lemma {:induction false} PageLength(total: nat, page: int, size: int)
    requires 1 <= page && 1 <= size <= 100
    ensures page * size <= total ==> |Page(total, page, size)| == size
    ensures (page - 1) * size <= total < page * size ==> |Page(total, page, size)| == total - (page - 1) * size
  {
    assert (page - 1) * size + size == page * size;
    assert (page - 1) * size >= 0;
  }

  /** Full pages as far as the log goes; then the short last page, if the log reaches it, from the
      offset its own smaller size gives it. */
  function Visited(limit: int, total: nat): seq<nat> {
    if limit <= 0 then []
    else
      var q, r := limit / 20, limit % 20;
      Rows(0, Min(20 * q, total)) + if r > 0 && total >= 20 * q then Rows(q * r, Min(q * r + r, total)) else []
  }

  method Visit(s: Summary, outcome: Outcome) returns (s': Summary)
    ensures s'.scanned == s.scanned + 1
    ensures s'.updated + s'.skipped + s'.failures == s.updated + s.skipped + s.failures + 1
    ensures s'.updated == s.updated + (if outcome == Applied then 1 else 0)
    ensures s'.failures == s.failures + (if outcome == Raised then 1 else 0)
  {
    s' := s.(scanned := s.scanned + 1);
    match outcome
    case NoCitations => s' := s'.(skipped := s'.skipped + 1);
    case Raised => s' := s'.(failures := s'.failures + 1);
    case Applied => s' := s'.(updated := s'.updated + 1);
    case NotApplied => s' := s'.(skipped := s'.skipped + 1);
  }

  function CountOf(outcomes: nat -> Outcome, n: nat, o: Outcome): nat {
    if n == 0 then 0 else CountOf(outcomes, n - 1, o) + if outcomes(n - 1) == o then 1 else 0
  }

  /** The counters agree with what happened at the first n visits. */
  ghost predicate Counted(s: Summary, outcomes: nat -> Outcome, n: nat) {
    && s.scanned == n && s.updated + s.skipped + s.failures == n
    && s.updated == CountOf(outcomes, n, Applied) && s.failures == CountOf(outcomes, n, Raised)
  }

  lemma RowsSplit(from: nat, mid: nat, upto: nat)
    requires from <= mid <= upto
    ensures Rows(from, mid) + Rows(mid, upto) == Rows(from, upto)
  {}

  /** The records of one page, in order. */
  method VisitPage(rows: seq<nat>, start: Summary, before: seq<nat>, outcomes: nat -> Outcome)
    returns (summary: Summary, visited: seq<nat>)
    requires Counted(start, outcomes, |before|)
    ensures visited == before + rows && Counted(summary, outcomes, |visited|)
  {
    summary, visited := start, before;
    for k := 0 to |rows|
      invariant visited == before + rows[..k]
      invariant Counted(summary, outcomes, |visited|)
    {
      summary := Visit(summary, outcomes(|visited|));
      visited := visited + [rows[k]];
    }
    assert rows[..|rows|] == rows;
  }

  /** Between two pages: whole pages so far, or everything that will be visited. */
  ghost predicate Progress(visited: seq<nat>, page: nat, limit: int, total: nat) {
    && page >= 1
    && if |visited| < limit then |visited| == 20 * (page - 1) <= total && visited == Rows(0, 20 * (page - 1))
       else visited == Visited(limit, total) && |visited| <= Max(0, limit)
  }

  /** reverify's loop. outcomes gives what happens at each visit, in order. The log is stable: its
      rows are rewritten in place and keep their order. */
  method Reverify(total: nat, limit: int, outcomes: nat -> Outcome) returns (summary: Summary, visited: seq<nat>)
    ensures visited == Visited(limit, total) && |visited| <= Max(0, limit)
    ensures Counted(summary, outcomes, |visited|)
  {
    summary, visited := Summary(0, 0, 0, 0), [];
    var page := 1;
    NothingYet(page, limit, total);
    while summary.scanned < limit
      invariant Counted(summary, outcomes, |visited|) && Progress(visited, page, limit, total)
      decreases limit - summary.scanned
    {
      var size := Min(20, limit - summary.scanned);
      var rows := Page(total, page, size);
      Advance(visited, page, limit, total);
      if rows == [] { break; }
      summary, visited := VisitPage(rows, summary, visited, outcomes);
      if |rows| < size { break; }
      page := page + 1;
    }
  }

  lemma NothingYet(page: nat, limit: int, total: nat)
    requires page == 1
    ensures Progress([], page, limit, total)
  {}

  /** A page that comes back empty or short ends the visit as stated; a full one makes progress. */
  lemma Advance(visited: seq<nat>, page: nat, limit: int, total: nat)
    requires Progress(visited, page, limit, total) && |visited| < limit
    ensures var size := Min(20, limit - |visited|);
            var rows := Page(total, page, size);
            && |rows| <= size && |visited + rows| <= limit
            && (|rows| < size ==> visited + rows == Visited(limit, total))
            && (rows == [] ==> visited == Visited(limit, total))
            && (|rows| == size ==> Progress(visited + rows, page + 1, limit, total))
  {
    if limit - |visited| >= 20 {
      FullPage(total, limit, page);
    } else {
      assert page - 1 == limit / 20 && limit - |visited| == limit % 20;
      LastPage(total, limit);
    }
    assert visited + [] == visited;
  }

  lemma ShortLog(total: nat, limit: int)
    requires limit > 0 && total < 20 * (limit / 20)
    ensures Visited(limit, total) == Rows(0, total)
  {}

  lemma WholePages(total: nat, limit: int)
    requires limit > 0 && limit % 20 == 0 && limit <= total
    ensures Visited(limit, total) == Rows(0, limit)
  {}

  lemma TwentyRows(total: nat, page: nat)
    requires page >= 1 && 20 * (page - 1) <= total
    ensures var done := 20 * (page - 1);
            Page(total, page, 20) == Rows(done, Min(done + 20, total))
            && |Page(total, page, 20)| == Min(20, total - done)
  {}

  lemma FullPage(total: nat, limit: int, page: nat)
    requires page >= 1 && 20 * page <= limit && 20 * (page - 1) <= total
    ensures var done, rows := 20 * (page - 1), Page(total, page, 20);
            && |rows| <= 20 && Rows(0, done) + rows == Rows(0, Min(done + 20, total))
            && (|rows| < 20 <==> total < done + 20)
            && (total < done + 20 ==> Rows(0, total) == Visited(limit, total))
            && (total >= done + 20 && done + 20 == limit ==> Rows(0, limit) == Visited(limit, total))
  {
    var done := 20 * (page - 1);
    TwentyRows(total, page);
    RowsSplit(0, done, Min(done + 20, total));
    if total < done + 20 {
      ShortLog(total, limit);
    } else if done + 20 == limit {
      WholePages(total, limit);
    }
  }

  lemma LastPage(total: nat, limit: int)
    requires limit > 0 && limit % 20 > 0 && 20 * (limit / 20) <= total
    ensures var q, r := limit / 20, limit % 20;
            var rows := Page(total, q + 1, r);
            |rows| <= r && Rows(0, 20 * q) + rows == Visited(limit, total)
  {
    var q, r := limit / 20, limit % 20;
    assert Page(total, q + 1, r) == Rows(q * r, Min(q * r + r, total));
  }

  /** The rows asked for, each exactly once and in order, are what is visited exactly when the limit
      is less than a page, or whole pages, or the log ends before the short last page. */
  lemma VisitsAsAskedIff(limit: int, total: nat)
    ensures Visited(limit, total) == Rows(0, Min(Max(0, limit), total))
            <==> limit < 20 || limit % 20 == 0 || total < 20 * (limit / 20)
  {
    if limit > 0 {
      var q, r := limit / 20, limit % 20;
      if q == 0 {
        LessThanAPage(limit, total);
      } else if total < 20 * q {
        ShortLog(total, limit);
      } else if r == 0 {
        WholePages(total, limit);
      } else {
        ShortPageGoesWrong(limit, total);
      }
    }
  }

  lemma LessThanAPage(limit: int, total: nat)
    requires 0 < limit < 20
    ensures Visited(limit, total) == Rows(0, Min(limit, total))
  {
    assert limit / 20 == 0 && limit % 20 == limit;
    assert Rows(0, 0) == [];
  }

  lemma ShortPageGoesWrong(limit: int, total: nat)
    requires limit > 20 && limit % 20 > 0 && total >= 20 * (limit / 20)
    ensures Visited(limit, total) != Rows(0, Min(limit, total))
  {
    var q, r := limit / 20, limit % 20;
    ShortPageStartsTooEarly(q, r);
    var full, last := Rows(0, 20 * q), Rows(q * r, Min(q * r + r, total));
    assert Visited(limit, total) == full + last;
    assert last[0] == q * r;
    assert (full + last)[20 * q] == q * r;
  }

  lemma ShortPageStartsTooEarly(q: nat, r: nat)
    requires q >= 1 && 0 < r < 20
    ensures q * r < 20 * q && 0 < q * r
  {}

  /** A limit of fifty on a long log: rows 20 to 29 are visited twice and 40 to 49 not at all. */
  lemma FiftyMissesTen(limit: int, total: nat, k: nat)
    requires limit == 50 <= total && 20 <= k < 30
    ensures |Visited(limit, total)| == 50 && forall row :: row in Visited(limit, total) ==> row < 40
    ensures Visited(limit, total)[k] == k && Visited(limit, total)[k + 20] == k
  {}
}
