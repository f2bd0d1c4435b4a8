/** The organization export's audit log: paging newest-first through a log that
    other requests keep appending to, then reversing the pages in place. */
module AuditExport {
  /** Rows carry a (created_at, id) key; 0 is Go's zero time. */
  datatype Key = Key(createdAt: int, id: int)

  datatype AuditEvent = AuditEvent(key: Key, payload: string)

  type Log = seq<AuditEvent>

  const STORE_LIMIT: nat := 500
  const ZERO_KEY := Key(0, 0)

  /** How many rows a page holds and how many pages the loop reads; pages are
      never larger than the store's own cap, so no request is coerced. */
  datatype Limits = Limits(pageSize: nat, maxPages: nat)
  {
    ghost predicate Fit() {
      1 <= pageSize <= STORE_LIMIT && 1 <= maxPages
    }

    /** How many rows `pages` full pages hold. */
    function Rows(pages: nat): nat {
      if pages == 0 then 0 else pageSize + Rows(pages - 1)
    }

    function Ceiling(): nat {
      Rows(maxPages)
    }
  }

  /** auditExportPageSize and auditExportMaxPages. */
  const EXPORT_LIMITS := Limits(500, 200)

  predicate Newer(a: Key, b: Key) {
    a.createdAt > b.createdAt || (a.createdAt == b.createdAt && a.id > b.id)
  }

  /** The table in ORDER BY created_at DESC, id DESC; ids are a primary key. */
  ghost predicate NewestFirst(log: Log) {
    forall i, j | 0 <= i < j < |log| :: Newer(log[i].key, log[j].key)
  }

  /** WHERE (created_at, id) < cursor, with the zero cursor filtering nothing. */
  function OlderThan(log: Log, cursor: Key): Log {
    if cursor == ZERO_KEY || log == [] || Newer(cursor, log[0].key) then log
    else OlderThan(log[1..], cursor)
  }

  function Take(log: Log, n: nat): Log {
    if |log| <= n then log else log[..n]
  }

  /** AuditLogList without filters. */
  function AuditLogList(log: Log, limit: int, cursor: Key): Log {
    Take(OlderThan(log, cursor), if limit <= 0 || limit > STORE_LIMIT then STORE_LIMIT else limit)
  }

  /** One page in plain terms: the newest rows that are older than the cursor, as many as asked
      for, or 500 if that is not between one and 500. */
  lemma AuditListIs(log: Log, limit: int, cursor: Key, e: AuditEvent)
    requires NewestFirst(log)
    ensures |AuditLogList(log, limit, cursor)| <= if 0 < limit <= 500 then limit else 500
    ensures
      var page := AuditLogList(log, limit, cursor);
      var older := cursor == Key(0, 0) || e.key.createdAt < cursor.createdAt
                   || (e.key.createdAt == cursor.createdAt && e.key.id < cursor.id);
      && (e in page ==> e in log && older)
      && (e in log && older && e !in page ==>
            && |page| == (if 0 < limit <= 500 then limit else 500)
            && forall p | p in page ::
                 p.key.createdAt > e.key.createdAt || (p.key.createdAt == e.key.createdAt && p.key.id > e.key.id))
  {
    OlderThanIs(log, cursor);
    var older, page := OlderThan(log, cursor), AuditLogList(log, limit, cursor);
    hide OlderThan;
    if e in older && e !in page {
      forall q | 0 <= q < |page|
        ensures older[q] != e
      {
        assert page[q] == older[q] && page[q] in page;
      }
      forall p | p in page
        ensures Newer(p.key, e.key)
      {
        var i :| 0 <= i < |page| && page[i] == p;
        var j :| 0 <= j < |older| && older[j] == e;
        assert older[i] == p && j >= |page|;
      }
    }
  }

  lemma {:induction false} RowsIsProduct(lim: Limits, pages: nat)
    ensures lim.Rows(pages) == pages * lim.pageSize
    ensures EXPORT_LIMITS.maxPages * EXPORT_LIMITS.pageSize == 100_000
  {
    if pages > 0 {
      RowsIsProduct(lim, pages - 1);
    }
  }

  // ----- the loop -----

  /** The pages read from page `page` on, and whether the page ceiling stopped
      the loop. The p-th query sees the log `views(p)`. */
  function Pages(lim: Limits, views: nat -> Log, cursor: Key, page: nat): (Log, bool)
    decreases lim.maxPages - page
  {
    if page >= lim.maxPages then ([], true)
    else
      var batch := AuditLogList(views(page), lim.pageSize, cursor);
      if |batch| < lim.pageSize || batch == [] then (batch, false)
      else
        var (rest, truncated) := Pages(lim, views, batch[|batch| - 1].key, page + 1);
        (batch + rest, truncated)
  }

  function Reversed(log: Log): (r: Log)
    ensures |r| == |log| && forall i | 0 <= i < |log| :: r[i] == log[|log| - 1 - i]
  {
    seq(|log|, i requires 0 <= i < |log| => log[|log| - 1 - i])
  }

  lemma Associative(a: Log, b: Log, c: Log)
    ensures (a + b) + c == a + (b + c) && a + [] == a
  {
  }

  class OrgExport {
    const limits: Limits
    var auditLog: seq<AuditEvent>
    var auditLogTruncated: bool

    constructor ()
      ensures limits == EXPORT_LIMITS && limits.Fit() && limits.pageSize == 500 && limits.maxPages == 200
      ensures auditLog == [] && !auditLogTruncated
    {
      limits := EXPORT_LIMITS;
      auditLog := [];
      auditLogTruncated := false;
    }

    /** `fails(p)`: the p-th query errors, and with it the export. */
    method LoadAuditLog(views: nat -> Log, fails: nat -> bool) returns (ok: bool)
      requires limits.Fit() && auditLog == [] && !auditLogTruncated
      modifies this
      ensures ok ==> auditLog == Pages(limits, views, ZERO_KEY, 0).0
      ensures ok ==> auditLogTruncated == Pages(limits, views, ZERO_KEY, 0).1
      ensures !ok ==> exists p: nat :: p < limits.maxPages && fails(p)
    {
      var cursor := ZERO_KEY;
      var page: nat := 0;
      assert [] + Pages(limits, views, cursor, page).0 == Pages(limits, views, cursor, page).0;
      while page < limits.maxPages
        invariant page <= limits.maxPages && !auditLogTruncated
        invariant Pages(limits, views, ZERO_KEY, 0).0 == auditLog + Pages(limits, views, cursor, page).0
        invariant Pages(limits, views, ZERO_KEY, 0).1 == Pages(limits, views, cursor, page).1
      {
        if fails(page) {
          return false;
        }
        var batch := AuditLogList(views(page), limits.pageSize, cursor);
        PagesStep(limits, views, cursor, page, batch);
        hide AuditLogList, Pages;
        if |batch| == 0 {
          return true;
        }
        Associative(auditLog, batch, Pages(limits, views, batch[|batch| - 1].key, page + 1).0);
        auditLog := auditLog + batch;
        if |batch| < limits.pageSize {
          return true;
        }
        var last := batch[|batch| - 1];
        cursor := Key(last.key.createdAt, last.key.id);
        page := page + 1;
      }
      auditLogTruncated := true;
      return true;
    }

    method ReverseAuditLog()
      modifies this`auditLog
      ensures auditLog == Reversed(old(auditLog))
    {
      var i, j := 0, |auditLog| - 1;
      while i < j
        invariant 0 <= i <= j + 1 && i + j == |auditLog| - 1
        invariant HalfReversed(auditLog, old(auditLog), i, j)
      {
        SwapNext(auditLog, old(auditLog), i, j);
        auditLog := auditLog[i := auditLog[j]][j := auditLog[i]];
        i, j := i + 1, j - 1;
      }
      assert forall k | 0 <= k < |auditLog| :: auditLog[k] == Reversed(old(auditLog))[k];
    }
  }

  /** The ends of `rows`, outside i..j, are those of `was` reversed; the middle is untouched. */
  ghost predicate HalfReversed(rows: Log, was: Log, i: int, j: int) {
    && |rows| == |was|
    && forall k {:trigger rows[k]} | 0 <= k < |rows| :: rows[k] == if i <= k <= j then was[k] else was[|was| - 1 - k]
  }

  lemma SwapNext(rows: Log, was: Log, i: int, j: int)
    requires 0 <= i < j < |rows| && i + j == |rows| - 1 && HalfReversed(rows, was, i, j)
    ensures HalfReversed(rows[i := rows[j]][j := rows[i]], was, i + 1, j - 1)
  {
  }

  // ----- stability under concurrent inserts -----

  /** Every view holds the same rows below the n-th row of the first one: whatever
      was inserted while paging is newer than the first page's last row. */
  ghost predicate InsertsAreNewer(views: nat -> Log, n: nat) {
    && (forall p: nat :: NewestFirst(views(p)))
    && (|views(0)| >= n > 0 ==>
          forall p: nat :: OlderThan(views(p), views(0)[n - 1].key) == views(0)[n..])
  }

  /** No row whose key becomes a cursor carries the zero key that means "start over". */
  ghost predicate NoZeroCursor(lim: Limits, log: Log) {
    forall j: nat | 1 <= j < lim.maxPages && lim.Rows(j) <= |log| :: !ZeroAt(lim, log, j)
  }

  /** The last row of the j-th full page has the zero key. */
  predicate ZeroAt(lim: Limits, log: Log, j: nat) {
    0 < lim.Rows(j) <= |log| && log[lim.Rows(j) - 1].key == ZERO_KEY
  }

  lemma {:induction false} RowsGrow(lim: Limits, j: nat, k: nat)
    requires j <= k && lim.Fit()
    ensures lim.Rows(j) + (k - j) <= lim.Rows(k)
    ensures lim.Rows(k) == lim.Rows(j) + lim.Rows(k - j)
  {
    if j < k {
      RowsGrow(lim, j, k - 1);
    }
  }

  lemma {:induction false} OlderThanSplits(log: Log, k: nat)
    requires NewestFirst(log) && k < |log| && log[k].key != ZERO_KEY
    ensures OlderThan(log, log[k].key) == log[k + 1..]
  {
    if k > 0 {
      assert log[1..][k - 1] == log[k];
      OlderThanSplits(log[1..], k - 1);
    } else if |log| > 1 {
      assert log[1..][0] == log[1];
    }
  }

  /** A later cursor cuts the rows below an earlier cursor: what lies above the
      earlier one cannot matter. */
  lemma {:induction false} OlderThanTwice(log: Log, c: Key, d: Key)
    requires NewestFirst(log) && c != ZERO_KEY && d != ZERO_KEY && (c == d || Newer(c, d))
    ensures OlderThan(log, d) == OlderThan(OlderThan(log, c), d)
  {
    if log != [] && !Newer(c, log[0].key) {
      OlderThanTwice(log[1..], c, d);
    }
  }

  /** The rows from index `from` up to index `to`, or to the end. */
  function Window(log: Log, from: nat, to: nat): Log
    requires from <= |log| && from <= to
  {
    if |log| < to then log[from..] else log[from..to]
  }

  lemma WindowSplits(log: Log, from: nat, mid: nat, to: nat)
    requires from <= mid <= |log| && mid <= to
    ensures Window(log, from, to) == log[from..mid] + Window(log, mid, to)
  {
  }

  lemma PageOf(log: Log, from: nat, size: nat)
    requires from <= |log| && size <= STORE_LIMIT && size >= 1
    ensures AuditLogList(log[from..], size, ZERO_KEY) == Take(log[from..], size)
    ensures |log| - from >= size ==>
              Take(log[from..], size) == log[from..from + size]
                  && Take(log[from..], size)[size - 1] == log[from + size - 1]
    ensures |log| - from < size ==> Take(log[from..], size) == log[from..] && |Take(log[from..], size)| < size
  {
  }

  /** Under newer inserts, a page read later is the page of the first view. */
  lemma LaterPage(views: nat -> Log, n: nat, k: nat, page: nat)
    requires InsertsAreNewer(views, n)
    requires 0 < n <= k + 1 <= |views(0)| && views(0)[n - 1].key != ZERO_KEY && views(0)[k].key != ZERO_KEY
    ensures OlderThan(views(page), views(0)[k].key) == views(0)[k + 1..]
  {
    var log := views(0);
    var first := log[n - 1].key;
    OlderThanTwice(views(page), first, log[k].key);
    OlderThanTwice(log, first, log[k].key);
    OlderThanSplits(log, k);
    OlderThanSplits(log, n - 1);
  }

  /** One round of the loop. */
  lemma PagesStep(lim: Limits, views: nat -> Log, cursor: Key, page: nat, batch: Log)
    requires lim.Fit() && page < lim.maxPages && batch == AuditLogList(views(page), lim.pageSize, cursor)
    ensures
      var now := Pages(lim, views, cursor, page);
      if |batch| < lim.pageSize then now == (batch, false)
      else
        var next := Pages(lim, views, batch[|batch| - 1].key, page + 1);
        now.0 == batch + next.0 && now.1 == next.1
  {
  }

  /** The loop from a cursor on row k of the first view: it reads on to the end of
      that view or to the page ceiling. */
  ghost predicate ReadsOn(lim: Limits, views: nat -> Log, k: nat, page: nat)
    requires k < |views(0)| && k + 1 <= lim.Ceiling()
  {
    && Pages(lim, views, views(0)[k].key, page).0 == Window(views(0), k + 1, lim.Ceiling())
    && (Pages(lim, views, views(0)[k].key, page).1 <==> |views(0)| >= lim.Ceiling())
  }

  lemma ShortPage(lim: Limits, views: nat -> Log, k: nat, page: nat)
    requires lim.Fit() && page < lim.maxPages
    requires k < |views(0)| < k + 1 + lim.pageSize <= lim.Ceiling()
    requires OlderThan(views(page), views(0)[k].key) == views(0)[k + 1..]
    ensures ReadsOn(lim, views, k, page)
  {
    PageOf(views(0), k + 1, lim.pageSize);
    SamePage(views(page), views(0), lim.pageSize, k);
    PagesStep(lim, views, views(0)[k].key, page, views(0)[k + 1..]);
  }

  lemma FullPage(lim: Limits, views: nat -> Log, k: nat, page: nat)
    requires lim.Fit() && page < lim.maxPages
    requires k + lim.pageSize < |views(0)| && k + 1 + lim.pageSize <= lim.Ceiling()
    requires OlderThan(views(page), views(0)[k].key) == views(0)[k + 1..]
    requires ReadsOn(lim, views, k + lim.pageSize, page + 1)
    ensures ReadsOn(lim, views, k, page)
  {
    hide AuditLogList, OlderThan, Pages, Window;
    var log, size := views(0), lim.pageSize;
    FullBatch(views(page), log, size, k);
    PagesStep(lim, views, log[k].key, page, log[k + 1..k + 1 + size]);
    WindowSplits(log, k + 1, k + 1 + size, lim.Ceiling());
  }

  lemma FullBatch(view: Log, log: Log, size: nat, k: nat)
    requires 1 <= size <= STORE_LIMIT && k + size < |log|
    requires OlderThan(view, log[k].key) == log[k + 1..]
    ensures AuditLogList(view, size, log[k].key) == log[k + 1..k + 1 + size]
  {
    hide OlderThan;
    PageOf(log, k + 1, size);
    SamePage(view, log, size, k);
  }

  lemma CursorIsNotZero(lim: Limits, log: Log, j: nat)
    requires lim.Fit() && NoZeroCursor(lim, log) && 1 <= j < lim.maxPages && lim.Rows(j) <= |log|
    ensures lim.Rows(j) >= lim.pageSize >= 1 && lim.Rows(1) == lim.pageSize
    ensures log[lim.Rows(j) - 1].key != ZERO_KEY && log[lim.pageSize - 1].key != ZERO_KEY
  {
    RowsGrow(lim, 1, j);
    assert lim.Rows(0) == 0;
    assert !ZeroAt(lim, log, j) && !ZeroAt(lim, log, 1);
  }

  lemma PagesEnd(lim: Limits, views: nat -> Log, page: nat)
    requires page == lim.maxPages && 1 <= lim.Rows(page) <= |views(0)|
    ensures ReadsOn(lim, views, lim.Rows(page) - 1, page)
  {
  }

  lemma {:induction false} PagesFrom(lim: Limits, views: nat -> Log, page: nat)
    requires lim.Fit() && InsertsAreNewer(views, lim.pageSize) && NoZeroCursor(lim, views(0))
    requires 1 <= page <= lim.maxPages && 1 <= lim.Rows(page) <= |views(0)| && lim.Rows(page) <= lim.Ceiling()
    ensures ReadsOn(lim, views, lim.Rows(page) - 1, page)
    decreases lim.maxPages - page
  {
    hide InsertsAreNewer, NoZeroCursor, NewestFirst, OlderThan, Pages, Window, ReadsOn;
    if page == lim.maxPages {
      PagesEnd(lim, views, page);
    } else {
      var k := lim.Rows(page) - 1;
      CursorIsNotZero(lim, views(0), page);
      LaterPage(views, lim.pageSize, k, page);
      RowsGrow(lim, page + 1, lim.maxPages);
      assert lim.Rows(page + 1) == lim.pageSize + lim.Rows(page);
      if |views(0)| < k + 1 + lim.pageSize {
        ShortPage(lim, views, k, page);
      } else {
        PagesFrom(lim, views, page + 1);
        FullPage(lim, views, k, page);
      }
    }
  }

  lemma SamePage(view: Log, log: Log, size: nat, k: nat)
    requires k < |log| && 1 <= size <= STORE_LIMIT
    requires OlderThan(view, log[k].key) == log[k + 1..]
    ensures AuditLogList(view, size, log[k].key) == Take(log[k + 1..], size)
  {
  }

  /** The exported log is the newest min(N, ceiling) rows of the log as the first
      page saw it, no gap and no duplicate; it counts as truncated exactly from
      that many rows on. With EXPORT_LIMITS the ceiling is 100000. */
  lemma ExportIsNewestPrefix(lim: Limits, views: nat -> Log)
    requires lim.Fit() && InsertsAreNewer(views, lim.pageSize) && NoZeroCursor(lim, views(0))
    ensures Pages(lim, views, ZERO_KEY, 0).0 == Take(views(0), lim.Ceiling())
    ensures Pages(lim, views, ZERO_KEY, 0).1 <==> |views(0)| >= lim.Ceiling()
  {
    hide Pages, AuditLogList, OlderThan, InsertsAreNewer, NoZeroCursor;
    var log, size := views(0), lim.pageSize;
    assert lim.Rows(1) == size + lim.Rows(0) && lim.Rows(0) == 0;
    RowsGrow(lim, 1, lim.maxPages);
    FirstBatch(log, size);
    PagesStep(lim, views, ZERO_KEY, 0, Take(log, size));
    if |log| >= size {
      WindowSplits(log, 0, size, lim.Ceiling());
      PagesFrom(lim, views, 1);
    }
  }

  lemma FirstBatch(log: Log, size: nat)
    requires 1 <= size <= STORE_LIMIT
    ensures AuditLogList(log, size, ZERO_KEY) == Take(log, size)
  {
  }

  // ----- without any condition on the inserts -----

  /** Rows are never taken out of the log; they may come in anywhere. */
  ghost predicate OnlyInserts(views: nat -> Log) {
    forall p: nat :: NewestFirst(views(p)) && forall e | e in views(0) :: e in views(p)
  }

  predicate Below(cursor: Key, e: AuditEvent) {
    cursor == ZERO_KEY || Newer(cursor, e.key)
  }

  lemma {:induction false} OlderThanIs(log: Log, cursor: Key)
    requires NewestFirst(log)
    ensures NewestFirst(OlderThan(log, cursor))
    ensures forall e :: e in OlderThan(log, cursor) <==> e in log && Below(cursor, e)
  {
    if log != [] && cursor != ZERO_KEY && !Newer(cursor, log[0].key) {
      OlderThanIs(log[1..], cursor);
      assert log == [log[0]] + log[1..];
    }
  }

  /** A page descends, lies below its cursor, and leaves out only what is older than it. */
  lemma PageIs(log: Log, size: nat, cursor: Key)
    requires NewestFirst(log) && 1 <= size <= STORE_LIMIT
    ensures
      var page := AuditLogList(log, size, cursor);
      && NewestFirst(page) && |page| <= size && (forall e | e in page :: Below(cursor, e))
      && forall e | e in log && Below(cursor, e) ::
           e in page || (|page| == size && Newer(page[size - 1].key, e.key))
  {
    OlderThanIs(log, cursor);
  }

  /** The page ceiling stopped the loop above this row. */
  predicate Missed(read: Log, truncated: bool, e: AuditEvent) {
    truncated && (read == [] || Newer(read[|read| - 1].key, e.key))
  }

  /** What was read below `cursor` descends strictly, and leaves out no row of the first
      view down to the end, or down to its own last row when the ceiling stopped the loop. */
  ghost predicate ReadsDown(first: Log, cursor: Key, read: Log, truncated: bool) {
    && NewestFirst(read)
    && (forall e | e in read :: Below(cursor, e))
    && (forall e | e in first && Below(cursor, e) :: e in read || Missed(read, truncated, e))
  }

  lemma ReadOn(first: Log, cursor: Key, batch: Log, rest: Log, truncated: bool)
    requires batch != [] && NewestFirst(batch) && forall e | e in batch :: Below(cursor, e)
    requires
      var last := batch[|batch| - 1].key;
      && last != ZERO_KEY && ReadsDown(first, last, rest, truncated)
      && forall e | e in first && Below(cursor, e) :: e in batch || Newer(last, e.key)
    ensures ReadsDown(first, cursor, batch + rest, truncated)
  {
    assert batch[|batch| - 1] in batch;
    DescendOn(batch, rest);
    hide NewestFirst;
  }

  lemma DescendOn(batch: Log, rest: Log)
    requires batch != [] && NewestFirst(batch) && NewestFirst(rest)
    requires forall e | e in rest :: Newer(batch[|batch| - 1].key, e.key)
    ensures NewestFirst(batch + rest)
  {
  }

  lemma ReadToTheEnd(first: Log, view: Log, size: nat, cursor: Key)
    requires NewestFirst(view) && 1 <= size <= STORE_LIMIT && forall e | e in first :: e in view
    requires |AuditLogList(view, size, cursor)| < size
    ensures ReadsDown(first, cursor, AuditLogList(view, size, cursor), false)
  {
    PageIs(view, size, cursor);
    hide AuditLogList, NewestFirst;
  }

  lemma ReadFullPage(first: Log, view: Log, size: nat, cursor: Key, rest: Log, truncated: bool)
    requires NewestFirst(view) && 1 <= size <= STORE_LIMIT && forall e | e in first :: e in view
    requires
      var batch := AuditLogList(view, size, cursor);
      && |batch| >= size && batch[|batch| - 1].key != ZERO_KEY
      && ReadsDown(first, batch[|batch| - 1].key, rest, truncated)
    ensures ReadsDown(first, cursor, AuditLogList(view, size, cursor) + rest, truncated)
  {
    PageIs(view, size, cursor);
    hide AuditLogList, NewestFirst, ReadsDown;
    ReadOn(first, cursor, AuditLogList(view, size, cursor), rest, truncated);
  }

  /** Whatever commits while paging, also below the cursor: as long as no row that is read
      has the zero key, the pages descend strictly, so no row comes twice, and no row of the
      first view is left out on the way. */
  lemma {:induction false} PagesDescend(lim: Limits, views: nat -> Log, cursor: Key, page: nat)
    requires lim.Fit() && OnlyInserts(views) && page <= lim.maxPages
    requires forall e | e in Pages(lim, views, cursor, page).0 :: e.key != ZERO_KEY
    ensures
      var (read, truncated) := Pages(lim, views, cursor, page);
      ReadsDown(views(0), cursor, read, truncated)
    decreases lim.maxPages - page
  {
    hide AuditLogList, OlderThan, NewestFirst, ReadsDown, Below;
    if page == lim.maxPages {
      NothingRead(views(0), cursor);
      return;
    }
    var batch := AuditLogList(views(page), lim.pageSize, cursor);
    PagesStep(lim, views, cursor, page, batch);
    hide Pages;
    if |batch| < lim.pageSize {
      ReadToTheEnd(views(0), views(page), lim.pageSize, cursor);
    } else {
      var last := batch[|batch| - 1];
      var (rest, truncated) := Pages(lim, views, last.key, page + 1);
      assert last in batch + rest;
      assert forall e | e in rest :: e in batch + rest;
      PagesDescend(lim, views, last.key, page + 1);
      ReadFullPage(views(0), views(page), lim.pageSize, cursor, rest, truncated);
    }
  }

  lemma NothingRead(first: Log, cursor: Key)
    ensures ReadsDown(first, cursor, [], true)
  {
  }

  lemma ReversedMembers(log: Log, e: AuditEvent)
    ensures e in Reversed(log) <==> e in log
  {
    if e in log {
      var i :| 0 <= i < |log| && log[i] == e;
      assert Reversed(log)[|log| - 1 - i] == e;
    }
  }

  lemma ReversedOrder(log: Log)
    requires NewestFirst(log)
    ensures forall i, j | 0 <= i < j < |log| :: Newer(Reversed(log)[j].key, Reversed(log)[i].key)
  {
  }

  /** After the reversal the export reads strictly forward in time, over the same rows. */
  lemma ReversedIsChronological(lim: Limits, views: nat -> Log)
    requires lim.Fit() && InsertsAreNewer(views, lim.pageSize) && NoZeroCursor(lim, views(0))
    ensures
      var rows := Reversed(Pages(lim, views, ZERO_KEY, 0).0);
      && (forall i, j | 0 <= i < j < |rows| ::
            || rows[i].key.createdAt < rows[j].key.createdAt
            || (rows[i].key.createdAt == rows[j].key.createdAt && rows[i].key.id < rows[j].key.id))
      && (forall e :: e in rows <==> e in Take(views(0), lim.Ceiling()))
  {
    ExportIsNewestPrefix(lim, views);
    assert NewestFirst(views(0));
    var taken := Take(views(0), lim.Ceiling());
    ReversedOrder(taken);
    forall e
      ensures e in Reversed(taken) <==> e in taken
    {
      ReversedMembers(taken, e);
    }
  }

  lemma PrependedView(view: Log, inserted: Log, log: Log, n: nat)
    requires NewestFirst(view) && view == inserted + log
    requires 0 < n <= |log| && log[n - 1].key != ZERO_KEY
    ensures OlderThan(view, log[n - 1].key) == log[n..]
  {
    assert view[|inserted| + n - 1] == log[n - 1];
    assert view[|inserted| + n..] == log[n..];
    hide NewestFirst, OlderThan;
    OlderThanSplits(view, |inserted| + n - 1);
  }

  /** Rows are only ever prepended, as a log with a growing clock does it. */
  ghost predicate Prepends(views: nat -> Log) {
    forall p: nat :: NewestFirst(views(p)) && |views(0)| <= |views(p)|
                     && views(p)[|views(p)| - |views(0)|..] == views(0)
  }

  lemma PrependedAt(views: nat -> Log, p: nat) returns (inserted: Log)
    requires Prepends(views)
    ensures NewestFirst(views(p)) && views(p) == inserted + views(0)
  {
    inserted := views(p)[..|views(p)| - |views(0)|];
  }

  /** Such a log meets the condition on inserts. */
  lemma PrependedRowsAreNewer(views: nat -> Log, n: nat)
    requires n > 0 && Prepends(views)
    requires |views(0)| >= n ==> views(0)[n - 1].key != ZERO_KEY
    ensures InsertsAreNewer(views, n)
  {
    hide NewestFirst, OlderThan;
    if |views(0)| >= n {
      forall p: nat
        ensures OlderThan(views(p), views(0)[n - 1].key) == views(0)[n..]
      {
        var inserted := PrependedAt(views, p);
        PrependedView(views(p), inserted, views(0), n);
      }
    }
  }

  // ----- the zero key -----

  /** Two rows of a log never share a key, so at most one cursor is zero. */
  lemma ZeroOnce(lim: Limits, log: Log, i: nat, j: nat)
    requires lim.Fit() && NewestFirst(log) && ZeroAt(lim, log, i) && ZeroAt(lim, log, j)
    ensures i == j
  {
    if i < j {
      RowsGrow(lim, i, j);
    } else if j < i {
      RowsGrow(lim, j, i);
    }
  }

  lemma FirstPage(lim: Limits, views: nat -> Log)
    requires lim.Fit() && lim.pageSize <= |views(0)|
    ensures Pages(lim, views, ZERO_KEY, 0).0
            == views(0)[..lim.pageSize] + Pages(lim, views, views(0)[lim.pageSize - 1].key, 1).0
  {
    assert AuditLogList(views(0), lim.pageSize, ZERO_KEY) == views(0)[..lim.pageSize];
    PagesStep(lim, views, ZERO_KEY, 0, views(0)[..lim.pageSize]);
  }

  lemma JoinPages(log: Log, a: nat, b: nat, all: Log, rest: Log, more: Log)
    requires a <= b <= |log| && all == log[..a] + rest && rest == log[a..b] + more
    ensures all == log[..b] + more
  {
    assert log[..b] == log[..a] + log[a..b];
  }

  /** Up to the zero cursor the pages are those of the first view. */
  lemma {:induction false} PagesUpTo(lim: Limits, views: nat -> Log, zero: nat, j: nat)
    requires lim.Fit() && Prepends(views) && NewestFirst(views(0))
    requires 1 <= j <= zero < lim.maxPages && ZeroAt(lim, views(0), zero)
    ensures 0 < lim.Rows(j) <= |views(0)|
    ensures Pages(lim, views, ZERO_KEY, 0).0
            == views(0)[..lim.Rows(j)] + Pages(lim, views, views(0)[lim.Rows(j) - 1].key, j).0
    decreases j
  {
    hide Pages, Prepends, NewestFirst, AuditLogList, OlderThan;
    PageEnds(lim, views(0), zero, j);
    if j == 1 {
      FirstPage(lim, views);
    } else {
      PagesUpTo(lim, views, zero, j - 1);
      PageEnds(lim, views(0), zero, j - 1);
      FullPageAt(lim, views, j - 1);
      JoinPages(views(0), lim.Rows(j - 1), lim.Rows(j), Pages(lim, views, ZERO_KEY, 0).0,
                Pages(lim, views, views(0)[lim.Rows(j - 1) - 1].key, j - 1).0,
                Pages(lim, views, views(0)[lim.Rows(j) - 1].key, j).0);
    }
  }

  lemma PageEnds(lim: Limits, log: Log, zero: nat, j: nat)
    requires lim.Fit() && NewestFirst(log) && 1 <= j <= zero && ZeroAt(lim, log, zero)
    ensures lim.pageSize == lim.Rows(1) <= lim.Rows(j) <= |log|
    ensures j < zero ==> log[lim.Rows(j) - 1].key != ZERO_KEY
  {
    hide NewestFirst;
    assert lim.Rows(1) == lim.pageSize + lim.Rows(0) && lim.Rows(0) == 0;
    RowsGrow(lim, 1, j);
    RowsGrow(lim, j, zero);
    if j < zero {
      NotYetZero(lim, log, zero, j);
    }
  }

  lemma NotYetZero(lim: Limits, log: Log, zero: nat, j: nat)
    requires lim.Fit() && NewestFirst(log) && 1 <= j < zero && ZeroAt(lim, log, zero)
    ensures 0 < lim.Rows(j) <= |log| && log[lim.Rows(j) - 1].key != ZERO_KEY
  {
    RowsGrow(lim, j, zero);
    RowsGrow(lim, 0, j);
    if ZeroAt(lim, log, j) {
      ZeroOnce(lim, log, j, zero);
    }
  }

  lemma FullPageAt(lim: Limits, views: nat -> Log, j: nat)
    requires lim.Fit() && Prepends(views) && 1 <= j < lim.maxPages
    requires 0 < lim.Rows(j) && lim.Rows(j + 1) <= |views(0)| && views(0)[lim.Rows(j) - 1].key != ZERO_KEY
    ensures Pages(lim, views, views(0)[lim.Rows(j) - 1].key, j).0
            == views(0)[lim.Rows(j)..lim.Rows(j + 1)] + Pages(lim, views, views(0)[lim.Rows(j + 1) - 1].key, j + 1).0
  {
    hide NewestFirst, Prepends, OlderThan, Pages, InsertsAreNewer, NoZeroCursor;
    var log, k := views(0), lim.Rows(j) - 1;
    assert lim.Rows(j + 1) == lim.pageSize + lim.Rows(j);
    var inserted := PrependedAt(views, j);
    PrependedView(views(j), inserted, log, k + 1);
    PageOf(log, k + 1, lim.pageSize);
    SamePage(views(j), log, lim.pageSize, k);
    hide AuditLogList, Take;
    PagesStep(lim, views, log[k].key, j, log[k + 1..k + 1 + lim.pageSize]);
  }

  lemma StartsOver(lim: Limits, views: nat -> Log, page: nat)
    requires lim.Fit() && page < lim.maxPages && views(page) != []
    ensures Pages(lim, views, ZERO_KEY, page).0 != [] && Pages(lim, views, ZERO_KEY, page).0[0] == views(page)[0]
  {
    var batch := AuditLogList(views(page), lim.pageSize, ZERO_KEY);
    assert batch != [] && batch[0] == views(page)[0];
    PagesStep(lim, views, ZERO_KEY, page, batch);
  }

  lemma DiffersAt(log: Log, n: nat, ceiling: nat, rest: Log)
    requires n <= |log| && n < ceiling && rest != [] && (n < |log| ==> rest[0] != log[n])
    ensures log[..n] + rest != Take(log, ceiling)
  {
    if n < |log| {
      assert (log[..n] + rest)[n] == rest[0] && Take(log, ceiling)[n] == log[n];
    }
  }

  lemma NewestAgain(lim: Limits, views: nat -> Log, page: nat, n: nat)
    requires lim.Fit() && Prepends(views) && page < lim.maxPages && 0 < n <= |views(0)|
    ensures
      var again := Pages(lim, views, ZERO_KEY, page).0;
      again != [] && (n < |views(0)| ==> again[0] != views(0)[n])
  {
    hide Pages, AuditLogList, OlderThan, NewestFirst;
    var inserted := PrependedAt(views, page);
    hide Prepends;
    StartsOver(lim, views, page);
    if n < |views(0)| {
      NewestIsAbove(views(page), inserted, views(0), n);
    }
  }

  lemma MoreThan(lim: Limits, j: nat)
    requires lim.Fit() && j < lim.maxPages
    ensures lim.Rows(j) < lim.Ceiling()
  {
    RowsGrow(lim, j, lim.maxPages);
  }

  /** A zero cursor starts over: the next row is the newest of that view, which comes
      twice or out of order. */
  lemma {:induction false} ZeroStartsOver(lim: Limits, views: nat -> Log, zero: nat)
    requires lim.Fit() && Prepends(views) && NewestFirst(views(0))
    requires 1 <= zero < lim.maxPages && ZeroAt(lim, views(0), zero)
    ensures Pages(lim, views, ZERO_KEY, 0).0 != Take(views(0), lim.Ceiling())
  {
    hide Pages, Prepends, NewestFirst, Take;
    var n := lim.Rows(zero);
    PagesUpTo(lim, views, zero, zero);
    MoreThan(lim, zero);
    NewestAgain(lim, views, zero, n);
    assert views(0)[n - 1].key == ZERO_KEY;
    DiffersAt(views(0), n, lim.Ceiling(), Pages(lim, views, ZERO_KEY, zero).0);
  }

  lemma NewestIsAbove(view: Log, inserted: Log, log: Log, n: nat)
    requires NewestFirst(view) && view == inserted + log && 0 < n < |log|
    ensures view[0] != log[n]
  {
    assert view[|inserted| + n] == log[n];
    assert Newer(view[0].key, view[|inserted| + n].key);
  }

  /** The exact condition: with rows only prepended while paging, the export is the newest
      prefix of the log if and only if no row whose key becomes a cursor has the zero
      key. A zero key anywhere else does no harm. */
  lemma ExportIsExactIff(lim: Limits, views: nat -> Log)
    requires lim.Fit() && Prepends(views)
    ensures Pages(lim, views, ZERO_KEY, 0).0 == Take(views(0), lim.Ceiling()) <==> NoZeroCursor(lim, views(0))
  {
    assert NewestFirst(views(0));
    hide Pages, Take, Prepends, NewestFirst;
    if NoZeroCursor(lim, views(0)) {
      InsertsFit(lim, views);
    } else {
      var j: nat :| 1 <= j < lim.maxPages && lim.Rows(j) <= |views(0)| && ZeroAt(lim, views(0), j);
      ZeroStartsOver(lim, views, j);
    }
  }

  lemma InsertsFit(lim: Limits, views: nat -> Log)
    requires lim.Fit() && Prepends(views) && NoZeroCursor(lim, views(0))
    ensures Pages(lim, views, ZERO_KEY, 0).0 == Take(views(0), lim.Ceiling())
  {
    assert lim.Rows(1) == lim.pageSize + lim.Rows(0) && lim.Rows(0) == 0;
    if lim.maxPages == 1 || |views(0)| < lim.pageSize {
      assert AuditLogList(views(0), lim.pageSize, ZERO_KEY) == Take(views(0), lim.pageSize);
      PagesStep(lim, views, ZERO_KEY, 0, Take(views(0), lim.pageSize));
      if lim.maxPages == 1 {
        assert lim.Ceiling() == lim.pageSize;
      } else {
        RowsGrow(lim, 1, lim.maxPages);
      }
    } else {
      CursorIsNotZero(lim, views(0), 1);
      PrependedRowsAreNewer(views, lim.pageSize);
      ExportIsNewestPrefix(lim, views);
    }
  }
}
