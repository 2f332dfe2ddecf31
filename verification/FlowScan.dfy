/** Paginated scans over the flow table, and what the baseline learner and the microsegmentation
    planner make of them. */
module FlowScan {
  import opened Prelude

  const PAGE_LIMIT := 5000

  /** A stored row; `rest` stands for the columns nothing here looks at. */
  datatype Sample = Sample(id: int, at: int, srcRef: string, dstRef: string, rest: string)

  datatype Record = Record(at: int, srcRef: string, dstRef: string, rest: string)

  datatype Cursor = Cursor(at: int, id: int)

  /** The record has its row's time, source, destination and other columns. */
  predicate IsRecordOf(r: Record, s: Sample) {
    r.at == s.at && r.srcRef == s.srcRef && r.dstRef == s.dstRef && r.rest == s.rest
  }

  function ToRecord(s: Sample): (r: Record)
    ensures IsRecordOf(r, s)
  {
    Record(s.at, s.srcRef, s.dstRef, s.rest)
  }

  function Records(ss: seq<Sample>): (rs: seq<Record>)
    ensures |rs| == |ss| && forall i :: 0 <= i < |ss| ==> rs[i] == ToRecord(ss[i])
  {
    seq(|ss|, i requires 0 <= i < |ss| => ToRecord(ss[i]))
  }

  // ----- the table and one page of it -----

  predicate OlderThan(s: Sample, c: Cursor) {
    s.at < c.at || (s.at == c.at && s.id < c.id)
  }

  function KeyOf(s: Sample): Cursor {
    Cursor(s.at, s.id)
  }

  /** The table in the order it is queried: newest first, ties by descending id. */
  predicate NewestFirst(rows: seq<Sample>) {
    forall i, j :: 0 <= i < j < |rows| ==>
      rows[j].at < rows[i].at || (rows[j].at == rows[i].at && rows[j].id < rows[i].id)
  }

  /** A lower bound of zero or less is no bound. */
  predicate FromOn(at: int, from: int) {
    from > 0 ==> at >= from
  }

  /** The rows from a time on. */
  function Window(rows: seq<Sample>, from: int): seq<Sample> {
    if rows == [] then []
    else if FromOn(rows[0].at, from) then [rows[0]] + Window(rows[1..], from)
    else Window(rows[1..], from)
  }

  /** The rows past a cursor. */
  function Past(rows: seq<Sample>, c: Option<Cursor>): seq<Sample> {
    if c.None? || rows == [] then rows
    else if OlderThan(rows[0], c.value) then [rows[0]] + Past(rows[1..], c)
    else Past(rows[1..], c)
  }

  /** One page: at most a page of the matching rows past the cursor, and the cursor of the next page
      when there is one. */
  function Query(rows: seq<Sample>, from: int, cursor: Option<Cursor>): (seq<Sample>, Option<Cursor>) {
    var matching := Past(Window(rows, from), cursor);
    if |matching| > PAGE_LIMIT then (matching[..PAGE_LIMIT], Some(KeyOf(matching[PAGE_LIMIT - 1])))
    else (matching, None)
  }

  lemma FirstIsNewest(first: Sample, rest: seq<Sample>)
    requires NewestFirst(rest) && forall s :: s in rest ==> OlderThan(s, KeyOf(first))
    ensures NewestFirst([first] + rest)
  {
    var all := [first] + rest;
    forall i, j | 0 <= i < j < |all| ensures OlderThan(all[j], KeyOf(all[i])) {
      if i > 0 {
        assert all[i] == rest[i - 1] && all[j] == rest[j - 1];
      } else {
        assert all[j] in rest;
      }
    }
  }

  lemma {:induction false} WindowIsSorted(rows: seq<Sample>, from: int)
    requires NewestFirst(rows)
    ensures NewestFirst(Window(rows, from))
    ensures forall s :: s in Window(rows, from) ==> s in rows
  {
    if rows != [] {
      var rest := rows[1..];
      WindowIsSorted(rest, from);
      forall s | s in Window(rest, from) ensures OlderThan(s, KeyOf(rows[0])) {
        var i :| 0 <= i < |rest| && rest[i] == s;
        assert rows[i + 1] == s;
      }
      FirstIsNewest(rows[0], Window(rest, from));
    }
  }

  /** In a sorted table, what lies past the cursor of a row is what follows that row. */
  lemma {:induction false} PastRow(rows: seq<Sample>, k: nat)
    requires NewestFirst(rows) && k < |rows|
    ensures Past(rows, Some(KeyOf(rows[k]))) == rows[k + 1..]
  {
    var rest, c := rows[1..], KeyOf(rows[k]);
    if k > 0 {
      assert rest[k - 1] == rows[k];
      PastRow(rest, k - 1);
    } else {
      assert forall i :: 0 <= i < |rest| ==> rest[i] == rows[i + 1];
      AllPast(rest, c);
    }
  }

  lemma {:induction false} AllPast(rows: seq<Sample>, c: Cursor)
    requires forall i :: 0 <= i < |rows| ==> OlderThan(rows[i], c)
    ensures Past(rows, Some(c)) == rows
  {
    if rows != [] { AllPast(rows[1..], c); }
  }

  // ----- a table that is written while it is read -----

  /** A table that has gained newer rows, and kept the ones it had. */
  predicate GrownFrom(base: seq<Sample>, table: seq<Sample>) {
    |base| <= |table| && table[|table| - |base|..] == base && NewestFirst(table)
  }

  /** The table as each query of a scan finds it. */
  ghost predicate Grows(tables: nat -> seq<Sample>) {
    forall q: nat :: GrownFrom(tables(0), tables(q))
  }

  lemma {:induction false} WindowJoin(a: seq<Sample>, b: seq<Sample>, from: int)
    ensures Window(a + b, from) == Window(a, from) + Window(b, from)
  {
    if a == [] {
      assert a + b == b;
    } else {
      assert (a + b)[1..] == a[1..] + b;
      WindowJoin(a[1..], b, from);
    }
  }

  /** What no row of a part is past a cursor, the part adds nothing past it. */
  lemma {:induction false} PastNewer(newer: seq<Sample>, rows: seq<Sample>, c: Cursor)
    requires forall s :: s in newer ==> !OlderThan(s, c)
    ensures Past(newer + rows, Some(c)) == Past(rows, Some(c))
  {
    if newer == [] {
      assert newer + rows == rows;
    } else {
      assert (newer + rows)[1..] == newer[1..] + rows;
      assert newer[0] in newer;
      PastNewer(newer[1..], rows, c);
    }
  }

  /** A page past a cursor of the old rows is the same page, however many newer rows there are now. */
  lemma NewerRowsChangeNoPage(base: seq<Sample>, table: seq<Sample>, from: int, c: Cursor)
    requires GrownFrom(base, table) && exists s :: s in base && c == KeyOf(s)
    ensures Query(table, from, Some(c)) == Query(base, from, Some(c))
  {
    var newer := table[..|table| - |base|];
    assert table == newer + base;
    WindowJoin(newer, base, from);
    WindowMembers(newer, from);
    var s :| s in base && c == KeyOf(s);
    forall x | x in Window(newer, from) ensures !OlderThan(x, c) {
      NewerThanBase(newer, base, x, s);
    }
    PastNewer(Window(newer, from), Window(base, from), c);
  }

  lemma NewerThanBase(newer: seq<Sample>, base: seq<Sample>, x: Sample, s: Sample)
    requires NewestFirst(newer + base) && x in newer && s in base
    ensures OlderThan(s, KeyOf(x)) && !OlderThan(x, KeyOf(s))
  {
    var i :| 0 <= i < |newer| && newer[i] == x;
    var j :| 0 <= j < |base| && base[j] == s;
    assert (newer + base)[i] == x && (newer + base)[|newer| + j] == s;
  }

  /** The rows of a window are exactly those from its start on, and every row when there is no start. */
  lemma {:induction false} WindowMembers(rows: seq<Sample>, from: int)
    ensures forall s :: s in Window(rows, from) <==> s in rows && (from <= 0 || s.at >= from)
  {
    if rows != [] {
      WindowMembers(rows[1..], from);
      assert forall s :: s in rows <==> s == rows[0] || s in rows[1..];
    }
  }

  // ----- scanning -----

  /** Where a scan of whole pages up to a row cap ends. */
  function ScanEnd(total: nat, rowCap: nat): nat {
    var whole := (rowCap + PAGE_LIMIT - 1) / PAGE_LIMIT * PAGE_LIMIT;
    if total <= whole then total else whole
  }

  /** The cursor after `k` rows of the window, as the scans carry it. */
  ghost predicate CursorAt(window: seq<Sample>, k: nat, cursor: Option<Cursor>) {
    k <= |window| && if k == 0 then cursor.None? else cursor == Some(KeyOf(window[k - 1]))
  }

  lemma PastCursor(rows: seq<Sample>, from: int, k: nat, cursor: Option<Cursor>)
    requires NewestFirst(rows) && CursorAt(Window(rows, from), k, cursor)
    ensures Past(Window(rows, from), cursor) == Window(rows, from)[k..]
  {
    var w := Window(rows, from);
    if k > 0 {
      WindowIsSorted(rows, from);
      PastRow(w, k - 1);
    }
  }

  /** One query from a scan's cursor: the next rows of the window, and a cursor exactly when more
      remain. */
  ghost predicate NextPage(w: seq<Sample>, k: nat, page: seq<Sample>, next: Option<Cursor>)
    requires k <= |w|
  {
    && k + |page| <= |w| && page == w[k..k + |page|]
    && (next.None? <==> k + |page| == |w|)
    && (next.Some? ==> |page| == PAGE_LIMIT && CursorAt(w, k + |page|, next))
    && |page| <= PAGE_LIMIT
  }

  lemma QueryAt(rows: seq<Sample>, from: int, k: nat, cursor: Option<Cursor>)
    requires CursorAt(Window(rows, from), k, cursor)
    requires Past(Window(rows, from), cursor) == Window(rows, from)[k..]
    ensures NextPage(Window(rows, from), k, Query(rows, from, cursor).0, Query(rows, from, cursor).1)
  {
  }

  method FetchPage(table: seq<Sample>, ghost base: seq<Sample>, from: int, cursor: Option<Cursor>, ghost k: nat)
    returns (page: seq<Sample>, next: Option<Cursor>)
    requires GrownFrom(base, table) && CursorAt(Window(base, from), k, cursor)
    requires cursor.None? ==> table == base
    ensures NextPage(Window(base, from), k, page, next)
  {
    BaseIsSorted(base, table);
    PastCursor(base, from, k, cursor);
    QueryAt(base, from, k, cursor);
    if cursor.Some? {
      WindowMembers(base, from);
      assert Window(base, from)[k - 1] in Window(base, from);
      NewerRowsChangeNoPage(base, table, from, cursor.value);
    }
    var answer := Query(table, from, cursor);
    page, next := answer.0, answer.1;
  }

  lemma BaseIsSorted(base: seq<Sample>, table: seq<Sample>)
    requires GrownFrom(base, table)
    ensures NewestFirst(base)
  {
    var n := |table| - |base|;
    assert forall i :: 0 <= i < |base| ==> base[i] == table[n + i];
  }

  lemma NextSlice<T>(s: seq<T>, from: nat, size: nat)
    requires from + size <= |s|
    ensures s[..from] + s[from..from + size] == s[..from + size]
  {
  }

  lemma RecordsJoin(a: seq<Sample>, b: seq<Sample>)
    ensures Records(a + b) == Records(a) + Records(b)
  {
  }

  /** Page through the rows from a time on, newest first, until the cap is reached or the rows run
      out, while the table gains newer rows between the queries: what is read is what the first query
      had to read. A query may fail. */
  method ScanFlowRecords(tables: nat -> seq<Sample>, fails: nat -> bool, from: int, rowCap: nat)
    returns (r: Option<seq<Record>>)
    requires Grows(tables)
    ensures r.Some? ==>
      r.value == Records(Window(tables(0), from)[..ScanEnd(|Window(tables(0), from)|, rowCap)])
    ensures (forall k :: !fails(k)) ==> r.Some?
  {
    var out: seq<Record> := [];
    var cursor: Option<Cursor> := None;
    var query: nat := 0;
    ghost var w := Window(tables(0), from);
    while |out| < rowCap
      invariant CursorAt(w, |out|, cursor) && out == Records(w[..|out|])
      invariant cursor.None? ==> query == 0
      invariant |out| % PAGE_LIMIT == 0 && |out| < rowCap + PAGE_LIMIT
      decreases |w| - |out| + (if |out| == 0 then 1 else 0)
    {
      if fails(query) { return None; }
      var page, next := FetchPage(tables(query), tables(0), from, cursor, |out|);
      query := query + 1;
      NextSlice(w, |out|, |page|);
      RecordsJoin(w[..|out|], page);
      out := out + Records(page);
      if next.None? {
        assert |out| == |w| == ScanEnd(|w|, rowCap);
        return Some(out);
      }
      cursor := next;
    }
    assert |out| == ScanEnd(|w|, rowCap);
    r := Some(out);
  }

  /** The page-wise scan is a prefix of the plain newest-first list: all of it, or at least the cap
      and less than a page more. */
  lemma ScanIsAPrefix(total: nat, rowCap: nat)
    ensures ScanEnd(total, rowCap) <= total
    ensures ScanEnd(total, rowCap) == total || rowCap <= ScanEnd(total, rowCap) < rowCap + PAGE_LIMIT
    ensures total <= rowCap ==> ScanEnd(total, rowCap) == total
  {
  }

  // ----- grouping by reference -----

  predicate Touches(r: Record, ref: string) {
    r.srcRef == ref || r.dstRef == ref
  }

  function Touching(rs: seq<Record>, ref: string): seq<Record> {
    if rs == [] then []
    else if Touches(rs[0], ref) then [rs[0]] + Touching(rs[1..], ref)
    else Touching(rs[1..], ref)
  }

  lemma {:induction false} TouchingOneMore(rs: seq<Record>, r: Record, ref: string)
    ensures Touching(rs + [r], ref) == Touching(rs, ref) + if r.srcRef == ref || r.dstRef == ref then [r] else []
  {
    if rs == [] {
      assert (rs + [r])[1..] == [];
    } else {
      assert (rs + [r])[1..] == rs[1..] + [r];
      TouchingOneMore(rs[1..], r, ref);
    }
  }

  lemma {:induction false} TouchingAre(rs: seq<Record>, ref: string)
    ensures forall r :: r in Touching(rs, ref) <==> r in rs && (r.srcRef == ref || r.dstRef == ref)
  {
    if rs != [] {
      TouchingAre(rs[1..], ref);
      assert forall r :: r in rs <==> r == rs[0] || r in rs[1..];
    }
  }

  function Bucket(byRef: map<string, seq<Record>>, ref: string): seq<Record> {
    if ref in byRef then byRef[ref] else []
  }

  /** Every reference has its records, and only references with records are there. */
  ghost predicate Grouped(byRef: map<string, seq<Record>>, rs: seq<Record>) {
    && (forall ref :: ref != "" ==> Bucket(byRef, ref) == Touching(rs, ref))
    && (forall ref :: ref in byRef <==> ref != "" && Touching(rs, ref) != [])
  }

  /** One record more, in the bucket of each reference it involves. */
  ghost predicate Filed(before: map<string, seq<Record>>, rec: Record, after: map<string, seq<Record>>) {
    && (forall ref :: ref != "" ==>
          Bucket(after, ref) == Bucket(before, ref) + if rec.srcRef == ref || rec.dstRef == ref then [rec] else [])
    && (forall ref :: ref in after <==> ref in before || (ref != "" && (rec.srcRef == ref || rec.dstRef == ref)))
  }

  lemma FiledIsGrouped(before: map<string, seq<Record>>, rs: seq<Record>, rec: Record, after: map<string, seq<Record>>)
    requires Grouped(before, rs) && Filed(before, rec, after)
    ensures Grouped(after, rs + [rec])
  {
    forall ref ensures ref != "" ==> Bucket(after, ref) == Touching(rs + [rec], ref)
               ensures ref in after <==> ref != "" && Touching(rs + [rec], ref) != []
    {
      TouchingOneMore(rs, rec, ref);
    }
  }

  method FileRecord(byRef: map<string, seq<Record>>, rec: Record) returns (after: map<string, seq<Record>>)
    ensures Filed(byRef, rec, after)
  {
    after := byRef;
    if rec.srcRef != "" {
      after := after[rec.srcRef := Bucket(after, rec.srcRef) + [rec]];
    }
    if rec.dstRef != "" && rec.dstRef != rec.srcRef {
      after := after[rec.dstRef := Bucket(after, rec.dstRef) + [rec]];
    }
  }

  /** Bucket records by every reference they involve, each record once per reference. */
  method GroupRecordsByRef(records: seq<Record>) returns (byRef: map<string, seq<Record>>)
    ensures forall ref :: ref != "" ==> Bucket(byRef, ref) == Touching(records, ref)
    ensures forall ref :: ref in byRef <==> ref != "" && Touching(records, ref) != []
  {
    byRef := map[];
    for i := 0 to |records|
      invariant Grouped(byRef, records[..i])
    {
      var after := FileRecord(byRef, records[i]);
      FiledIsGrouped(byRef, records[..i], records[i], after);
      assert records[..i + 1] == records[..i] + [records[i]];
      byRef := after;
    }
    assert records[..|records|] == records;
  }

  // ----- gathering one guest -----

  /** A guest's records up to a time, of the rows given. */
  function GuestUpTo(rows: seq<Sample>, guest: string, end: int): seq<Record> {
    if rows == [] then []
    else if rows[0].at <= end && (rows[0].srcRef == guest || rows[0].dstRef == guest) then
      [ToRecord(rows[0])] + GuestUpTo(rows[1..], guest, end)
    else GuestUpTo(rows[1..], guest, end)
  }

  /** The records gathered are those of rows up to that time with the guest at either end. */
  lemma {:induction false} GuestUpToAre(rows: seq<Sample>, guest: string, end: int, r: Record)
    ensures r in GuestUpTo(rows, guest, end) <==>
      exists s :: s in rows && IsRecordOf(r, s) && s.at <= end && (s.srcRef == guest || s.dstRef == guest)
  {
    if rows != [] {
      GuestUpToAre(rows[1..], guest, end, r);
      assert forall s :: s in rows <==> s == rows[0] || s in rows[1..];
      assert r == ToRecord(rows[0]) <==> IsRecordOf(r, rows[0]);
    }
  }

  lemma {:induction false} GuestUpToJoin(a: seq<Sample>, b: seq<Sample>, guest: string, end: int)
    ensures GuestUpTo(a + b, guest, end) == GuestUpTo(a, guest, end) + GuestUpTo(b, guest, end)
  {
    if a == [] {
      assert a + b == b;
    } else {
      assert (a + b)[1..] == a[1..] + b;
      GuestUpToJoin(a[1..], b, guest, end);
    }
  }

  lemma GuestUpToOneMore(rows: seq<Sample>, s: Sample, guest: string, end: int)
    ensures GuestUpTo(rows + [s], guest, end)
         == GuestUpTo(rows, guest, end) +
           if s.at <= end && (s.srcRef == guest || s.dstRef == guest) then [ToRecord(s)] else []
  {
    GuestUpToJoin(rows, [s], guest, end);
    assert [s][1..] == [];
  }

  /** One page, and what it adds to the gather. */
  method FetchGuest(table: seq<Sample>, ghost base: seq<Sample>, start: int, cursor: Option<Cursor>, ghost k: nat,
                    guest: string, end: int)
    returns (page: seq<Sample>, kept: seq<Record>, next: Option<Cursor>)
    requires GrownFrom(base, table) && CursorAt(Window(base, start), k, cursor)
    requires cursor.None? ==> table == base
    ensures var w := Window(base, start);
      NextPage(w, k, page, next) && GuestUpTo(w[..k + |page|], guest, end) == GuestUpTo(w[..k], guest, end) + kept
  {
    page, next := FetchPage(table, base, start, cursor, k);
    kept := KeepGuest(page, guest, end);
    NextSlice(Window(base, start), k, |page|);
    GuestUpToJoin(Window(base, start)[..k], page, guest, end);
  }

  method Gather(tables: nat -> seq<Sample>, fails: nat -> bool, guest: string, start: int, end: int, rowCap: nat)
    returns (r: Option<seq<Record>>)
    requires Grows(tables)
    ensures r.Some? ==>
      var w := Window(tables(0), start); r.value == GuestUpTo(w[..ScanEnd(|w|, rowCap)], guest, end)
    ensures (forall k :: !fails(k)) ==> r.Some?
  {
    var out: seq<Record> := [];
    var cursor: Option<Cursor> := None;
    var scanned: nat, query: nat := 0, 0;
    ghost var w := Window(tables(0), start);
    while scanned < rowCap
      invariant CursorAt(w, scanned, cursor) && out == GuestUpTo(w[..scanned], guest, end)
      invariant cursor.None? ==> query == 0
      invariant scanned % PAGE_LIMIT == 0 && scanned < rowCap + PAGE_LIMIT
      decreases |w| - scanned + (if scanned == 0 then 1 else 0)
    {
      if fails(query) { return None; }
      var page, kept, next := FetchGuest(tables(query), tables(0), start, cursor, scanned, guest, end);
      query := query + 1;
      out := out + kept;
      scanned := scanned + |page|;
      if next.None? {
        assert scanned == |w| == ScanEnd(|w|, rowCap);
        return Some(out);
      }
      cursor := next;
    }
    assert scanned == ScanEnd(|w|, rowCap);
    r := Some(out);
  }

  method KeepGuest(page: seq<Sample>, guest: string, end: int) returns (out: seq<Record>)
    ensures out == GuestUpTo(page, guest, end)
  {
    out := [];
    for i := 0 to |page|
      invariant out == GuestUpTo(page[..i], guest, end)
    {
      var sm := page[i];
      assert page[..i + 1] == page[..i] + [sm];
      GuestUpToOneMore(page[..i], sm, guest, end);
      if sm.at > end { continue; }
      if sm.srcRef != guest && sm.dstRef != guest { continue; }
      out := out + [ToRecord(sm)];
    }
    assert page[..|page|] == page;
  }

  // ----- theorems -----

  /** The records up to a time. */
  function UpTo(rs: seq<Record>, end: int): seq<Record> {
    if rs == [] then []
    else if rs[0].at <= end then [rs[0]] + UpTo(rs[1..], end)
    else UpTo(rs[1..], end)
  }

  lemma {:induction false} TouchingUpTo(rows: seq<Sample>, guest: string, end: int)
    ensures UpTo(Touching(Records(rows), guest), end) == GuestUpTo(rows, guest, end)
  {
    if rows != [] {
      var rest, first := rows[1..], ToRecord(rows[0]);
      TouchingUpTo(rest, guest, end);
      assert Records(rows)[1..] == Records(rest);
      var touching := Touching(Records(rest), guest);
      assert ([first] + touching)[1..] == touching;
    }
  }

  /** When neither scan hits its cap, the learner's bucket for a guest, cut at the window's end, is
      the planner's gather for that guest: same records, same order, same multiplicity. */
  lemma BucketIsGather(rows: seq<Sample>, from: int, guest: string, end: int, learnerCap: nat, plannerCap: nat)
    requires |Window(rows, from)| <= learnerCap && |Window(rows, from)| <= plannerCap
    ensures var w := Window(rows, from);
      UpTo(Touching(Records(w[..ScanEnd(|w|, learnerCap)]), guest), end) ==
        GuestUpTo(w[..ScanEnd(|w|, plannerCap)], guest, end)
  {
    var w := Window(rows, from);
    ScanIsAPrefix(|w|, learnerCap);
    ScanIsAPrefix(|w|, plannerCap);
    TouchingUpTo(w, guest, end);
    assert w[..|w|] == w;
  }

  /** The training and the held-out window, from three clock readings derived from one. */
  datatype Windows = Windows(trainStart: int, trainEnd: int, heldStart: int, heldEnd: int)

  function WindowsAt(now: int, heldOutAgo: int, learnAgo: int): Windows {
    Windows(learnAgo, heldOutAgo, heldOutAgo, now)
  }

  lemma {:induction false} GatheredMembers(rows: seq<Sample>, from: int, guest: string, end: int)
    ensures forall r :: r in GuestUpTo(Window(rows, from), guest, end) ==>
      FromOn(r.at, from) && r.at <= end && Touches(r, guest)
  {
    if rows != [] {
      WindowFirst(rows, from, guest, end);
      GatheredMembers(rows[1..], from, guest, end);
    }
  }

  /** The two corpora share only records stamped at the boundary second. */
  lemma SharedOnlyAtTheBoundary(rows: seq<Sample>, guest: string, now: int, heldOutAgo: int, learnAgo: int, r: Record)
    requires heldOutAgo > 0
    requires var w := WindowsAt(now, heldOutAgo, learnAgo);
      && r in GuestUpTo(Window(rows, w.trainStart), guest, w.trainEnd)
      && r in GuestUpTo(Window(rows, w.heldStart), guest, w.heldEnd)
    ensures r.at == heldOutAgo
  {
    GatheredMembers(rows, learnAgo, guest, heldOutAgo);
    GatheredMembers(rows, heldOutAgo, guest, now);
  }

  /** What one row adds to a gather. */
  function Share(s: Sample, from: int, guest: string, end: int): multiset<Record> {
    if FromOn(s.at, from) && s.at <= end && Touches(ToRecord(s), guest) then multiset{ToRecord(s)} else multiset{}
  }

  lemma ShareBalance(s: Sample, guest: string, now: int, heldOutAgo: int, learnAgo: int)
    requires 0 < heldOutAgo <= now && learnAgo <= heldOutAgo
    ensures Share(s, learnAgo, guest, heldOutAgo) + Share(s, heldOutAgo, guest, now)
         == Share(s, learnAgo, guest, now) + Share(s, heldOutAgo, guest, heldOutAgo)
  {
  }

  lemma WindowFirst(rows: seq<Sample>, from: int, guest: string, end: int)
    requires rows != []
    ensures GuestUpTo(Window(rows, from), guest, end)
         == (if FromOn(rows[0].at, from) && rows[0].at <= end && Touches(ToRecord(rows[0]), guest)
           then [ToRecord(rows[0])] else [])
            + GuestUpTo(Window(rows[1..], from), guest, end)
  {
    var rest := Window(rows[1..], from);
    assert ([rows[0]] + rest)[1..] == rest;
  }

  lemma WindowStep(rows: seq<Sample>, from: int, guest: string, end: int)
    requires rows != []
    ensures Gathered(rows, from, guest, end) == Gathered(rows[1..], from, guest, end) + Share(rows[0], from, guest, end)
  {
    WindowFirst(rows, from, guest, end);
  }

  lemma Balance(a: multiset<Record>, b: multiset<Record>, c: multiset<Record>, d: multiset<Record>,
                w: multiset<Record>, x: multiset<Record>, y: multiset<Record>, z: multiset<Record>)
    requires a + b == c + d && w + x == y + z
    ensures (a + w) + (b + x) == (c + y) + (d + z)
  {
    assert (a + w) + (b + x) == (a + b) + (w + x);
    assert (c + y) + (d + z) == (c + d) + (y + z);
  }

  function Gathered(rows: seq<Sample>, from: int, guest: string, end: int): multiset<Record> {
    multiset(GuestUpTo(Window(rows, from), guest, end))
  }

  /** Nothing between the two windows is lost: together they hold every record of the whole span
      once, and those of the boundary second once more. */
  lemma {:induction false} NothingFallsBetween(rows: seq<Sample>, guest: string, now: int, heldOutAgo: int,
                                               learnAgo: int)
    requires 0 < heldOutAgo <= now && learnAgo <= heldOutAgo
    ensures Gathered(rows, learnAgo, guest, heldOutAgo) + Gathered(rows, heldOutAgo, guest, now)
         == Gathered(rows, learnAgo, guest, now) + Gathered(rows, heldOutAgo, guest, heldOutAgo)
  {
    if rows != [] {
      var rest, first := rows[1..], rows[0];
      NothingFallsBetween(rest, guest, now, heldOutAgo, learnAgo);
      ShareBalance(first, guest, now, heldOutAgo, learnAgo);
      WindowStep(rows, learnAgo, guest, heldOutAgo);
      WindowStep(rows, heldOutAgo, guest, now);
      WindowStep(rows, learnAgo, guest, now);
      WindowStep(rows, heldOutAgo, guest, heldOutAgo);
      Balance(Gathered(rest, learnAgo, guest, heldOutAgo), Gathered(rest, heldOutAgo, guest, now),
              Gathered(rest, learnAgo, guest, now), Gathered(rest, heldOutAgo, guest, heldOutAgo),
              Share(first, learnAgo, guest, heldOutAgo), Share(first, heldOutAgo, guest, now),
              Share(first, learnAgo, guest, now), Share(first, heldOutAgo, guest, heldOutAgo));
    }
  }
}
