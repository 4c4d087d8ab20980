/** The audit log: rows listed newest first, page by page, while new rows may arrive between requests. */
module AuditPaging {
  import opened Prelude
  import GoText

  datatype AuditEvent = AuditEvent(id: string, occurredAt: int, actorId: string, action: string, resourceId: string)

  /** ORDER BY occurred_at DESC, id DESC: a comes before b. */
  predicate Newer(a: AuditEvent, b: AuditEvent) {
    a.occurredAt > b.occurredAt || (a.occurredAt == b.occurredAt && GoText.Less(b.id, a.id))
  }

  function InsertEvent(log: seq<AuditEvent>, e: AuditEvent): seq<AuditEvent> {
    if log == [] || Newer(e, log[0]) then [e] + log else [log[0]] + InsertEvent(log[1..], e)
  }

  /** The whole table in listing order. */
  function NewestFirst(rows: seq<AuditEvent>): seq<AuditEvent> {
    if rows == [] then [] else InsertEvent(NewestFirst(rows[..|rows| - 1]), rows[|rows| - 1])
  }

  ghost predicate Descending(log: seq<AuditEvent>) {
    forall i, j :: 0 <= i < j < |log| ==> Newer(log[i], log[j])
  }

  /** id is the primary key. */
  ghost predicate DistinctIDs(rows: seq<AuditEvent>) {
    forall i, j :: 0 <= i < j < |rows| ==> rows[i].id != rows[j].id
  }

  lemma NewerTransitive(a: AuditEvent, b: AuditEvent, c: AuditEvent)
    requires Newer(a, b) && Newer(b, c)
    ensures Newer(a, c)
  {
    if a.occurredAt == b.occurredAt == c.occurredAt { GoText.LessTransitive(c.id, b.id, a.id); }
  }

  lemma {:induction false} InsertMembers(log: seq<AuditEvent>, e: AuditEvent, x: AuditEvent)
    ensures x in InsertEvent(log, e) <==> x == e || x in log
  {
    if log != [] && !Newer(e, log[0]) { InsertMembers(log[1..], e, x); }
  }

  lemma {:induction false} InsertAddsOne(log: seq<AuditEvent>, e: AuditEvent)
    ensures multiset(InsertEvent(log, e)) == multiset(log) + multiset{e}
  {
    if log != [] && !Newer(e, log[0]) {
      InsertAddsOne(log[1..], e);
      assert log == [log[0]] + log[1..];
    }
  }

  lemma {:induction false} InsertKeepsOrder(log: seq<AuditEvent>, e: AuditEvent)
    requires Descending(log) && forall i :: 0 <= i < |log| ==> log[i].id != e.id
    ensures Descending(InsertEvent(log, e))
  {
    if log == [] {
    } else if Newer(e, log[0]) {
      forall i | 0 < i < |log| ensures Newer(e, log[i]) { NewerTransitive(e, log[0], log[i]); }
    } else {
      GoText.LessTotal(e.id, log[0].id);
      InsertKeepsOrder(log[1..], e);
      var rest := InsertEvent(log[1..], e);
      forall j | 0 <= j < |rest| ensures Newer(log[0], rest[j]) { InsertMembers(log[1..], e, rest[j]); }
    }
  }

  /** The listing is the table, each row once, in strictly descending order. */
  lemma {:induction false} ListingIsSortedTable(rows: seq<AuditEvent>)
    requires DistinctIDs(rows)
    ensures Descending(NewestFirst(rows)) && multiset(NewestFirst(rows)) == multiset(rows)
  {
    if rows != [] {
      var init, last := rows[..|rows| - 1], rows[|rows| - 1];
      assert rows == init + [last];
      ListingIsSortedTable(init);
      var log := NewestFirst(init);
      forall i | 0 <= i < |log| ensures log[i].id != last.id {
        assert log[i] in multiset(init);
        assert log[i] in init;
      }
      InsertKeepsOrder(log, last);
      InsertAddsOne(log, last);
    }
  }

  lemma {:induction false} InsertLength(log: seq<AuditEvent>, e: AuditEvent)
    ensures |InsertEvent(log, e)| == |log| + 1
  {
    if log != [] && !Newer(e, log[0]) { InsertLength(log[1..], e); }
  }

  lemma {:induction false} ListingLength(rows: seq<AuditEvent>)
    ensures |NewestFirst(rows)| == |rows|
  {
    if rows != [] {
      ListingLength(rows[..|rows| - 1]);
      InsertLength(NewestFirst(rows[..|rows| - 1]), rows[|rows| - 1]);
    }
  }

  // ---- the store -------------------------------------------------------------------------------------

  /** LIMIT and OFFSET: a negative limit is no limit. */
  function Slice(log: seq<AuditEvent>, offset: nat, limit: int): seq<AuditEvent> {
    if offset >= |log| then []
    else if limit < 0 || offset + limit > |log| then log[offset..]
    else log[offset..offset + limit]
  }

  class AuditStore {
    var rows: seq<AuditEvent>

    constructor ()
      ensures rows == []
    {
      rows := [];
    }

    method Record(e: AuditEvent, fails: bool) returns (ok: bool)
      requires DistinctIDs(rows)
      modifies this
      ensures DistinctIDs(rows)
      ensures ok <==> !fails && forall i :: 0 <= i < |old(rows)| ==> old(rows)[i].id != e.id
      ensures rows == if ok then old(rows) + [e] else old(rows)
    {
      if fails { return false; }
      if exists i :: 0 <= i < |rows| && rows[i].id == e.id { return false; }
      rows := rows + [e];
      return true;
    }

    method List(offset: nat, limit: int, fails: bool) returns (r: Option<seq<AuditEvent>>)
      ensures r == if fails then None else Some(Slice(NewestFirst(rows), offset, limit))
    {
      if fails { return None; }
      var selected := Slice(NewestFirst(rows), offset, limit);
      var events: seq<AuditEvent> := [];
      for i := 0 to |selected|
        invariant events == selected[..i]
      {
        events := events + [selected[i]];
      }
      assert selected[..|selected|] == selected;
      return Some(events);
    }
  }

  // ---- the RPC -----------------------------------------------------------------------------------------

  /** The page_size field of the request is a uint32. */
  type Uint32 = n: int | 0 <= n < 0x1_0000_0000

  datatype Response = Page(events: seq<AuditEvent>, next: string) | Refused(code: Code)

  function PageOffset(token: string): Option<nat> {
    var trimmed := GoText.TrimSpace(token);
    if trimmed == "" then Some(0)
    else
      match GoText.Atoi(trimmed)
      case None => None
      case Some(v) => if v < 0 then None else Some(v)
  }

  /** A size of 0 asks for the default. */
  function EffectiveSize(pageSize: Uint32): (size: nat)
    ensures size > 0
  {
    if pageSize == 0 then 50 else pageSize
  }

  /** How page tokens are read and printed. */
  datatype Tokens = Tokens(parse: string -> Option<nat>, show: nat -> string)

  /** The service reads a token as a decimal offset and prints the next offset in decimal. */
  const DECIMAL: Tokens := Tokens(token => PageOffset(token), (offset: nat) => GoText.Itoa(offset))

  /** The page at an offset. */
  function PageAt(t: Tokens, rows: seq<AuditEvent>, size: nat, offset: nat): Response {
    var events := Slice(NewestFirst(rows), offset, size + 1);
    if |events| <= size then Page(events, "") else Page(events[..size], t.show(offset + size))
  }

  /** ListAuditEvents after the caller is authorised. */
  function ListEvents(t: Tokens, rows: seq<AuditEvent>, pageSize: Uint32, token: string, fails: bool): Response {
    var size := EffectiveSize(pageSize);
    if size > 200 then Refused(InvalidArgument)
    else
      match t.parse(token)
      case None => Refused(InvalidArgument)
      case Some(offset) => if fails then Refused(Internal) else PageAt(t, rows, size, offset)
  }

  class AuditService {
    const auditStore: AuditStore

    constructor (store: AuditStore)
      ensures auditStore == store
    {
      auditStore := store;
    }

    /** actor is the answer of the authorisation. No slice is ever out of range, so no request panics. */
    method ListAuditEvents(actor: Result<string, Code>, pageSize: Uint32, token: string, fails: bool)
      returns (r: Response)
      ensures r == if actor.Err? then Refused(actor.error)
                   else ListEvents(DECIMAL, auditStore.rows, pageSize, token, fails)
    {
      if actor.Err? { return Refused(actor.error); }
      var size: int := pageSize;
      if size == 0 { size := 50; }
      if size > 200 { return Refused(InvalidArgument); }
      var parsed := PageOffset(token);
      if parsed.None? { return Refused(InvalidArgument); }
      assert DECIMAL.parse(token) == parsed;
      r := ListFrom(parsed.value, size, fails);
    }

    method ListFrom(offset: nat, size: nat, fails: bool) returns (r: Response)
      ensures r == if fails then Refused(Internal) else PageAt(DECIMAL, auditStore.rows, size, offset)
    {
      var events := auditStore.List(offset, size + 1, fails);
      if events.None? { return Refused(Internal); }
      var page := events.value;
      var next := "";
      if |page| > size {
        page := page[..size];
        next := GoText.Itoa(offset + size);
      }
      return Page(page, next);
    }
  }

  /** An authorised request is refused as invalid exactly when its size is over 200 or its token is neither
      blank nor a number from 0 to the largest int; any other request gets a page unless the store fails. */
  lemma RefusedExactly(rows: seq<AuditEvent>, pageSize: Uint32, token: string, fails: bool)
    ensures var r, trimmed := ListEvents(DECIMAL, rows, pageSize, token, fails), GoText.TrimSpace(token);
            var readable := trimmed == ""
                         || (GoText.Atoi(trimmed).Some? && 0 <= GoText.Atoi(trimmed).value <= GoText.MAX_INT);
            && (r == Refused(InvalidArgument) <==> pageSize > 200 || !readable)
            && (r == Refused(Internal) <==> pageSize <= 200 && readable && fails)
            && (r.Page? <==> pageSize <= 200 && readable && !fails)
            && (r.Page? ==> |r.events| <= if pageSize == 0 then 50 else pageSize)
  {
    assert DECIMAL.parse(token) == PageOffset(token);
  }

  // ---- following the tokens ----------------------------------------------------------------------------

  /** A token reads back as the offset that was printed, and the empty token as the start. */
  ghost predicate ReadsBack(t: Tokens) {
    && t.parse("") == Some(0)
    && forall n: nat :: n <= GoText.MAX_INT ==> PairReadsBack(t, n)
  }

  predicate PairReadsBack(t: Tokens, n: nat) {
    t.parse(t.show(n)) == Some(n) && t.show(n) != ""
  }

  lemma NumberAsToken(token: string, n: nat)
    requires token != "" && GoText.TrimSpace(token) == token && GoText.Atoi(token) == Some(n)
    ensures PageOffset(token) == Some(n)
  {
  }

  lemma DecimalToken(n: nat)
    requires n <= GoText.MAX_INT
    ensures PageOffset(GoText.Itoa(n)) == Some(n) && GoText.Itoa(n) != ""
  {
    GoText.ValueOfItoa(n);
    GoText.AtoiOfDigits(GoText.Itoa(n));
    GoText.DigitsAreTrimmed(GoText.Itoa(n));
    NumberAsToken(GoText.Itoa(n), n);
  }

  lemma DecimalPair(n: nat)
    requires n <= GoText.MAX_INT
    ensures PairReadsBack(DECIMAL, n)
  {
    DecimalToken(n);
    assert DECIMAL.show(n) == GoText.Itoa(n);
  }

  lemma BlankToken()
    ensures DECIMAL.parse("") == Some(0)
  {
    assert GoText.TrimSpace("") == "";
  }

  lemma DecimalReadsBack()
    ensures ReadsBack(DECIMAL)
  {
    BlankToken();
    forall n: nat | n <= GoText.MAX_INT ensures PairReadsBack(DECIMAL, n) { DecimalPair(n); }
  }

  /** One request answers the token of the one before. */
  ghost predicate Continues(t: Tokens, rows: seq<AuditEvent>, pageSize: Uint32, previous: Response, r: Response) {
    previous.Page? && previous.next != "" && r == ListEvents(t, rows, pageSize, previous.next, false)
  }

  /** A client asks for the first page and then for every next_page_token it is given, until there is none.
      tables[i] is the audit table when request i is served. */
  ghost predicate Followed(t: Tokens, tables: seq<seq<AuditEvent>>, pageSize: Uint32, responses: seq<Response>) {
    && |tables| == |responses| > 0
    && responses[0] == ListEvents(t, tables[0], pageSize, "", false)
    && (forall i :: 0 <= i < |responses| ==> responses[i].Page?)
    && (forall i :: 0 < i < |responses| ==> Continues(t, tables[i], pageSize, responses[i - 1], responses[i]))
    && responses[|responses| - 1].next == ""
  }

  ghost predicate Storable(tables: seq<seq<AuditEvent>>) {
    forall i :: 0 <= i < |tables| ==> |tables[i]| <= GoText.MAX_INT
  }

  /** The offset of request i. */
  function OffsetOf(i: nat, size: nat): nat {
    if i == 0 then 0 else OffsetOf(i - 1, size) + size
  }

  /** What a client gets to see: the events of a page and whether there is another. */
  datatype View = View(events: seq<AuditEvent>, more: bool)

  function ViewOf(r: Response): View {
    if r.Page? then View(r.events, r.next != "") else View([], false)
  }

  function ViewAt(log: seq<AuditEvent>, offset: nat, size: nat): View {
    if offset + size < |log| then View(log[offset..offset + size], true)
    else View(if offset < |log| then log[offset..] else [], false)
  }

  /** A request whose token reads as an offset gets that page, and a token for the next offset. */
  ghost predicate Answers(t: Tokens, rows: seq<AuditEvent>, offset: nat, size: nat, r: Response) {
    && r.Page? && ViewOf(r) == ViewAt(NewestFirst(rows), offset, size)
    && (r.next != "" ==> r.next == t.show(offset + size) && offset + size < |rows|)
  }

  lemma AnswersPage(t: Tokens, rows: seq<AuditEvent>, pageSize: Uint32, token: string, offset: nat)
    requires ReadsBack(t) && pageSize <= 200 && t.parse(token) == Some(offset) && |rows| <= GoText.MAX_INT
    ensures Answers(t, rows, offset, EffectiveSize(pageSize), ListEvents(t, rows, pageSize, token, false))
  {
    ListingLength(rows);
    var log, size := NewestFirst(rows), EffectiveSize(pageSize);
    assert offset + size <= GoText.MAX_INT ==> PairReadsBack(t, offset + size);
    var events := Slice(log, offset, size + 1);
    if offset + size < |log| { assert events[..size] == log[offset..offset + size]; }
  }

  lemma NextAnswers(t: Tokens, was: seq<AuditEvent>, rows: seq<AuditEvent>, pageSize: Uint32, offset: nat,
                    prior: Response, r: Response)
    requires ReadsBack(t) && pageSize <= 200 && Answers(t, was, offset, EffectiveSize(pageSize), prior)
    requires |was| <= GoText.MAX_INT && |rows| <= GoText.MAX_INT && Continues(t, rows, pageSize, prior, r)
    ensures Answers(t, rows, offset + EffectiveSize(pageSize), EffectiveSize(pageSize), r)
  {
    var next := offset + EffectiveSize(pageSize);
    assert PairReadsBack(t, next);
    AnswersPage(t, rows, pageSize, prior.next, next);
  }

  lemma OnlyAllowedSizes(t: Tokens, rows: seq<AuditEvent>, pageSize: Uint32, token: string)
    requires ListEvents(t, rows, pageSize, token, false).Page?
    ensures pageSize <= 200
  {
  }

  /** Every request of a client is for a page of the table as it then is, one page further each time. */
  lemma {:induction false} ResponseAt(t: Tokens, tables: seq<seq<AuditEvent>>, pageSize: Uint32,
                                      responses: seq<Response>, i: nat)
    requires ReadsBack(t) && Followed(t, tables, pageSize, responses) && Storable(tables) && i < |responses|
    ensures pageSize <= 200
    ensures Answers(t, tables[i], OffsetOf(i, EffectiveSize(pageSize)), EffectiveSize(pageSize), responses[i])
  {
    OnlyAllowedSizes(t, tables[0], pageSize, "");
    if i == 0 {
      AnswersPage(t, tables[0], pageSize, "", 0);
    } else {
      ResponseAt(t, tables, pageSize, responses, i - 1);
      assert Continues(t, tables[i], pageSize, responses[i - 1], responses[i]);
      NextAnswers(t, tables[i - 1], tables[i], pageSize, OffsetOf(i - 1, EffectiveSize(pageSize)), responses[i - 1],
                  responses[i]);
    }
  }

  // ---- the same in terms of listings: page i of a walk is cut from listing i -------------------------------

  ghost predicate Walk(logs: seq<seq<AuditEvent>>, size: nat, views: seq<View>) {
    && |logs| == |views| > 0 && size > 0
    && (forall i :: 0 <= i < |views| ==> views[i] == ViewAt(logs[i], OffsetOf(i, size), size))
    && (forall i :: 0 <= i < |views| ==> views[i].more == (i < |views| - 1))
  }

  function LogsOf(tables: seq<seq<AuditEvent>>): seq<seq<AuditEvent>> {
    seq(|tables|, i requires 0 <= i < |tables| => NewestFirst(tables[i]))
  }

  function ViewsOf(responses: seq<Response>): seq<View> {
    seq(|responses|, i requires 0 <= i < |responses| => ViewOf(responses[i]))
  }

  lemma FollowingIsWalking(t: Tokens, tables: seq<seq<AuditEvent>>, pageSize: Uint32, responses: seq<Response>)
    requires ReadsBack(t) && Followed(t, tables, pageSize, responses) && Storable(tables)
    ensures Walk(LogsOf(tables), EffectiveSize(pageSize), ViewsOf(responses))
  {
    var views := ViewsOf(responses);
    forall i | 0 <= i < |views|
      ensures views[i] == ViewAt(LogsOf(tables)[i], OffsetOf(i, EffectiveSize(pageSize)), EffectiveSize(pageSize))
    {
      ResponseAt(t, tables, pageSize, responses, i);
    }
    forall i | 0 <= i < |views| ensures views[i].more == (i < |views| - 1) {
      if i < |views| - 1 { assert Continues(t, tables[i + 1], pageSize, responses[i], responses[i + 1]); }
    }
  }

  // ---- events arriving between requests --------------------------------------------------------------------

  /** Between requests only events newer than everything before them arrive. */
  ghost predicate OnlyNewerArrive(before: seq<AuditEvent>, after: seq<AuditEvent>) {
    && before <= after
    && forall i, j :: |before| <= i < |after| && 0 <= j < i ==> Newer(after[i], after[j])
  }

  lemma {:induction false} ListedEventsAreRows(rows: seq<AuditEvent>, x: AuditEvent)
    ensures x in NewestFirst(rows) <==> x in rows
  {
    if rows != [] {
      ListedEventsAreRows(rows[..|rows| - 1], x);
      InsertMembers(NewestFirst(rows[..|rows| - 1]), rows[|rows| - 1], x);
    }
  }

  /** The old listing is the end of the new one. */
  ghost predicate PushedBack(log: seq<AuditEvent>, later: seq<AuditEvent>) {
    |log| <= |later| && later[|later| - |log|..] == log
  }

  lemma NewestOnTop(init: seq<AuditEvent>, last: AuditEvent)
    requires forall j :: 0 <= j < |init| ==> Newer(last, init[j])
    ensures NewestFirst(init + [last]) == [last] + NewestFirst(init)
  {
    assert (init + [last])[..|init|] == init;
    var log := NewestFirst(init);
    if log != [] { ListedEventsAreRows(init, log[0]); }
  }

  lemma OneMoreInFront(log: seq<AuditEvent>, later: seq<AuditEvent>, e: AuditEvent)
    requires PushedBack(log, later)
    ensures PushedBack(log, [e] + later)
  {
    assert ([e] + later)[|later| + 1 - |log|..] == later[|later| - |log|..];
  }

  lemma {:induction false} NewerGoInFront(before: seq<AuditEvent>, after: seq<AuditEvent>)
    requires OnlyNewerArrive(before, after)
    ensures PushedBack(NewestFirst(before), NewestFirst(after))
    decreases |after|
  {
    if |after| == |before| {
      assert after == before;
    } else {
      var init, last := after[..|after| - 1], after[|after| - 1];
      NewerGoInFront(before, init);
      NewestOnTop(init, last);
      assert after == init + [last];
      OneMoreInFront(NewestFirst(before), NewestFirst(init), last);
    }
  }

  lemma InsidePage(log: seq<AuditEvent>, offset: nat, size: nat, at: nat)
    requires offset <= at < |log| && offset + size <= |log|
    ensures at < offset + size ==> log[at] in log[offset..offset + size]
  {
    if at < offset + size { assert log[offset..offset + size][at - offset] == log[at]; }
  }

  /** Where an event of the first listing is in listing i, if no page before has shown it. */
  lemma {:induction false} NotYetShown(logs: seq<seq<AuditEvent>>, size: nat, views: seq<View>, i: nat,
                                       e: AuditEvent) returns (at: nat)
    requires Walk(logs, size, views) && i < |views|
    requires forall j :: 0 < j < |logs| ==> PushedBack(logs[j - 1], logs[j])
    requires e in logs[0] && forall j :: 0 <= j < i ==> e !in views[j].events
    ensures OffsetOf(i, size) <= at < |logs[i]| && logs[i][at] == e
  {
    if i == 0 {
      at :| 0 <= at < |logs[0]| && logs[0][at] == e;
    } else {
      var was := NotYetShown(logs, size, views, i - 1, e);
      var offset := OffsetOf(i - 1, size);
      assert views[i - 1].more && e !in views[i - 1].events;
      InsidePage(logs[i - 1], offset, size, was);
      assert PushedBack(logs[i - 1], logs[i]);
      at := was + |logs[i]| - |logs[i - 1]|;
      assert logs[i][|logs[i]| - |logs[i - 1]|..][was] == e;
    }
  }

  lemma EveryInitialEventIsSeenWith(t: Tokens, tables: seq<seq<AuditEvent>>, pageSize: Uint32,
                                    responses: seq<Response>, e: AuditEvent)
    requires ReadsBack(t) && Followed(t, tables, pageSize, responses) && Storable(tables)
    requires forall j :: 0 < j < |tables| ==> OnlyNewerArrive(tables[j - 1], tables[j])
    requires e in tables[0]
    ensures exists i :: 0 <= i < |responses| && responses[i].Page? && e in responses[i].events
  {
    FollowingIsWalking(t, tables, pageSize, responses);
    ListedEventsAreRows(tables[0], e);
    forall j | 0 < j < |tables| ensures PushedBack(LogsOf(tables)[j - 1], LogsOf(tables)[j]) {
      NewerGoInFront(tables[j - 1], tables[j]);
    }
    var i := SomePageShows(LogsOf(tables), EffectiveSize(pageSize), ViewsOf(responses), e);
    assert ViewsOf(responses)[i] == ViewOf(responses[i]);
  }

  lemma SomePageShows(logs: seq<seq<AuditEvent>>, size: nat, views: seq<View>, e: AuditEvent) returns (i: nat)
    requires Walk(logs, size, views) && e in logs[0]
    requires forall j :: 0 < j < |logs| ==> PushedBack(logs[j - 1], logs[j])
    ensures i < |views| && e in views[i].events
  {
    var last := |views| - 1;
    if j :| 0 <= j < last && e in views[j].events {
      i := j;
    } else {
      var at := NotYetShown(logs, size, views, last, e);
      var offset := OffsetOf(last, size);
      assert !views[last].more;
      assert logs[last][offset..][at - offset] == e;
      i := last;
    }
  }

  // ---- a log that does not change --------------------------------------------------------------------------

  function AllEvents(views: seq<View>): seq<AuditEvent> {
    if views == [] then [] else AllEvents(views[..|views| - 1]) + views[|views| - 1].events
  }

  lemma AllEventsStep(views: seq<View>, n: nat)
    requires 0 < n <= |views|
    ensures AllEvents(views[..n]) == AllEvents(views[..n - 1]) + views[n - 1].events
  {
    assert views[..n][..n - 1] == views[..n - 1];
  }

  lemma JoinSlices(log: seq<AuditEvent>, from: nat, to: nat)
    requires from <= to <= |log|
    ensures log[..from] + log[from..to] == log[..to]
  {
  }

  /** The first n pages are the first part of the log. */
  lemma {:induction false} PagesSoFar(log: seq<AuditEvent>, logs: seq<seq<AuditEvent>>, size: nat, views: seq<View>,
                                      n: nat)
    requires Walk(logs, size, views) && n < |views| && forall i :: 0 <= i < |logs| ==> logs[i] == log
    ensures OffsetOf(n, size) <= |log| && (n > 0 ==> OffsetOf(n, size) < |log|)
    ensures AllEvents(views[..n]) == log[..OffsetOf(n, size)]
  {
    if n > 0 {
      PagesSoFar(log, logs, size, views, n - 1);
      assert views[n - 1].more;
      AllEventsStep(views, n);
      JoinSlices(log, OffsetOf(n - 1, size), OffsetOf(n, size));
    }
  }

  lemma {:induction false} OffsetIsProduct(i: nat, size: nat)
    ensures OffsetOf(i, size) == i * size
  {
    if i > 0 { OffsetIsProduct(i - 1, size); }
  }

  lemma WholeWalk(log: seq<AuditEvent>, logs: seq<seq<AuditEvent>>, size: nat, views: seq<View>)
    requires Walk(logs, size, views) && forall i :: 0 <= i < |logs| ==> logs[i] == log
    ensures AllEvents(views) == log
    ensures if log == [] then |views| == 1 else OffsetOf(|views| - 1, size) < |log| <= OffsetOf(|views|, size)
  {
    var last := |views| - 1;
    PagesSoFar(log, logs, size, views, last);
    assert !views[last].more;
    AllEventsStep(views, |views|);
    assert views[..|views|] == views;
    JoinSlices(log, OffsetOf(last, size), |log|);
  }

  lemma PagesAreTheWholeLogWith(t: Tokens, rows: seq<AuditEvent>, pageSize: Uint32, tables: seq<seq<AuditEvent>>,
                                responses: seq<Response>)
    requires ReadsBack(t) && Followed(t, tables, pageSize, responses) && Storable(tables)
    requires DistinctIDs(rows) && forall i :: 0 <= i < |tables| ==> tables[i] == rows
    ensures var seen := AllEvents(ViewsOf(responses)); Descending(seen) && multiset(seen) == multiset(rows)
    ensures var size := EffectiveSize(pageSize);
            if rows == [] then |responses| == 1 else (|responses| - 1) * size < |rows| <= |responses| * size
  {
    FollowingIsWalking(t, tables, pageSize, responses);
    WholeWalk(NewestFirst(rows), LogsOf(tables), EffectiveSize(pageSize), ViewsOf(responses));
    OffsetIsProduct(|responses| - 1, EffectiveSize(pageSize));
    OffsetIsProduct(|responses|, EffectiveSize(pageSize));
    ListingIsSortedTable(rows);
    ListingLength(rows);
  }

  /** The table that every one of n requests meets when nothing is inserted. */
  function Unchanging(rows: seq<AuditEvent>, n: nat): (tables: seq<seq<AuditEvent>>)
    ensures |tables| == n && forall i :: 0 <= i < n ==> tables[i] == rows
  {
    seq(n, i => rows)
  }

  lemma PagesOfOneTable(t: Tokens, rows: seq<AuditEvent>, pageSize: Uint32, responses: seq<Response>)
    requires ReadsBack(t) && Followed(t, Unchanging(rows, |responses|), pageSize, responses)
    requires DistinctIDs(rows) && |rows| <= GoText.MAX_INT
    ensures var seen := AllEvents(ViewsOf(responses)); Descending(seen) && multiset(seen) == multiset(rows)
    ensures var size := EffectiveSize(pageSize);
            if rows == [] then |responses| == 1 else (|responses| - 1) * size < |rows| <= |responses| * size
  {
    PagesAreTheWholeLogWith(t, rows, pageSize, Unchanging(rows, |responses|), responses);
  }

  /** A client that has got as far as responses, all for the same table. */
  ghost predicate OnTheWay(t: Tokens, rows: seq<AuditEvent>, pageSize: Uint32, responses: seq<Response>) {
    && (responses != [] ==> responses[0] == ListEvents(t, rows, pageSize, "", false))
    && (forall i :: 0 <= i < |responses| ==> responses[i].Page?)
    && (forall i :: 0 < i < |responses| ==> Continues(t, rows, pageSize, responses[i - 1], responses[i]))
  }

  lemma OneResponseMore(t: Tokens, rows: seq<AuditEvent>, pageSize: Uint32, done: seq<Response>, next: Response)
    requires OnTheWay(t, rows, pageSize, done) && next.Page?
    requires if done == [] then next == ListEvents(t, rows, pageSize, "", false)
             else Continues(t, rows, pageSize, done[|done| - 1], next)
    ensures OnTheWay(t, rows, pageSize, done + [next])
  {
  }

  lemma AtTheEnd(t: Tokens, rows: seq<AuditEvent>, pageSize: Uint32, responses: seq<Response>)
    requires OnTheWay(t, rows, pageSize, responses) && responses != [] && responses[|responses| - 1].next == ""
    ensures Followed(t, Unchanging(rows, |responses|), pageSize, responses)
  {
    var tables := Unchanging(rows, |responses|);
    forall i | 0 < i < |responses| ensures Continues(t, tables[i], pageSize, responses[i - 1], responses[i]) {
      assert tables[i] == rows;
    }
  }

  lemma {:induction false} TokensLeadToTheEndWith(t: Tokens, rows: seq<AuditEvent>, pageSize: Uint32,
                                                  done: seq<Response>, offset: nat)
    returns (responses: seq<Response>)
    requires ReadsBack(t) && pageSize <= 200 && |rows| <= GoText.MAX_INT && OnTheWay(t, rows, pageSize, done)
    requires if done == [] then offset == 0
             else done[|done| - 1].next == t.show(offset) && done[|done| - 1].next != "" && offset < |rows|
    ensures Followed(t, Unchanging(rows, |responses|), pageSize, responses)
    decreases |rows| - offset
  {
    var token := if done == [] then "" else done[|done| - 1].next;
    assert PairReadsBack(t, offset);
    AnswersPage(t, rows, pageSize, token, offset);
    var next := ListEvents(t, rows, pageSize, token, false);
    OneResponseMore(t, rows, pageSize, done, next);
    responses := done + [next];
    if next.next != "" {
      responses := TokensLeadToTheEndWith(t, rows, pageSize, responses, offset + EffectiveSize(pageSize));
    } else {
      AtTheEnd(t, rows, pageSize, responses);
    }
  }

  // ---- the service's own tokens ----------------------------------------------------------------------------

  /** A client that follows the tokens to the end has seen every event that existed when it started,
      however many newer events arrived between its requests. */
  lemma EveryInitialEventIsSeen(tables: seq<seq<AuditEvent>>, pageSize: Uint32, responses: seq<Response>, e: AuditEvent)
    requires Storable(tables) && Followed(DECIMAL, tables, pageSize, responses)
    requires forall j :: 0 < j < |tables| ==> OnlyNewerArrive(tables[j - 1], tables[j])
    requires e in tables[0]
    ensures exists i :: 0 <= i < |responses| && responses[i].Page? && e in responses[i].events
  {
    DecimalReadsBack();
    EveryInitialEventIsSeenWith(DECIMAL, tables, pageSize, responses, e);
  }

  /** With no inserts the pages put together are the whole table, each event once and in listing order, and
      it takes the smallest number of requests whose pages can hold it, but at least one. */
  lemma PagesAreTheWholeLog(rows: seq<AuditEvent>, pageSize: Uint32, responses: seq<Response>)
    requires Followed(DECIMAL, Unchanging(rows, |responses|), pageSize, responses)
    requires DistinctIDs(rows) && |rows| <= GoText.MAX_INT
    ensures var seen := AllEvents(ViewsOf(responses)); Descending(seen) && multiset(seen) == multiset(rows)
    ensures var size := EffectiveSize(pageSize);
            if rows == [] then |responses| == 1 else (|responses| - 1) * size < |rows| <= |responses| * size
  {
    DecimalReadsBack();
    PagesOfOneTable(DECIMAL, rows, pageSize, responses);
  }

  /** With no inserts a client that asks for a size it may have always gets to the end. */
  lemma TokensLeadToTheEnd(rows: seq<AuditEvent>, pageSize: Uint32) returns (responses: seq<Response>)
    requires pageSize <= 200 && |rows| <= GoText.MAX_INT
    ensures Followed(DECIMAL, Unchanging(rows, |responses|), pageSize, responses)
  {
    DecimalReadsBack();
    responses := TokensLeadToTheEndWith(DECIMAL, rows, pageSize, [], 0);
  }
}
