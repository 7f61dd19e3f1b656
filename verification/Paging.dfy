/** Paging through a conversation: every message above the start, once, in order, even while others are stored. */
module Paging {
  import opened Sql
  import opened MessageTables
  import opened MessageRuns

  function ServerSeq(m: StoredMessage): int { m.serverSeq }

  /** The rows the WHERE clause of the page query selects. */
  function Above(messages: seq<StoredMessage>, conversationId: string, after: int): seq<StoredMessage> {
    if messages == [] then []
    else
      var last := messages[|messages| - 1];
      var front := Above(messages[..|messages| - 1], conversationId, after);
      if last.conversationId == conversationId && last.serverSeq > after then front + [last] else front
  }

  /** `listMessagesAfterSeq`. */
  function MessagePage(messages: seq<StoredMessage>, conversationId: string, after: int,
                       limit: int): seq<StoredMessage> {
    Limit(OrderBy(Above(messages, conversationId, after), ServerSeq), Bounded(limit))
  }

  /** `nextAfterSeq`: the largest number on the page, and 0 for an empty page. */
  function NextAfterSeq(page: seq<StoredMessage>): int {
    if page == [] then 0 else Max(NextAfterSeq(page[..|page| - 1]), page[|page| - 1].serverSeq)
  }

  /** The loop of `messageListToJson`. */
  method PageCursor(page: seq<StoredMessage>) returns (nextAfterSeq: int)
    ensures nextAfterSeq == NextAfterSeq(page)
    ensures nextAfterSeq >= 0 && forall m :: m in page ==> m.serverSeq <= nextAfterSeq
    ensures nextAfterSeq == 0 || exists m :: m in page && m.serverSeq == nextAfterSeq
    ensures page == [] ==> nextAfterSeq == 0
  {
    nextAfterSeq := 0;
    for i := 0 to |page|
      invariant nextAfterSeq == NextAfterSeq(page[..i])
      invariant nextAfterSeq >= 0 && forall m :: m in page[..i] ==> m.serverSeq <= nextAfterSeq
      invariant nextAfterSeq == 0 || exists m :: m in page[..i] && m.serverSeq == nextAfterSeq
    {
      assert page[..i + 1][..i] == page[..i] && page[..i + 1] == page[..i] + [page[i]];
      assert page[i] in page[..i + 1];
      nextAfterSeq := Max(nextAfterSeq, page[i].serverSeq);
    }
    assert page[..|page|] == page;
  }

  function Clamp(after: int, n: nat): (k: nat)
    ensures k <= n
  {
    if after < 0 then 0 else if after > n then n else after
  }

  lemma {:induction false} AboveIsSuffix(messages: seq<StoredMessage>, conversationId: string, after: int)
    requires Numbered(InConversation(messages, conversationId))
    ensures var rows := InConversation(messages, conversationId);
            Above(messages, conversationId, after) == rows[Clamp(after, |rows|)..]
  {
    if messages == [] {
    } else {
      var front, last := messages[..|messages| - 1], messages[|messages| - 1];
      var rows, frontRows := InConversation(messages, conversationId), InConversation(front, conversationId);
      assert forall k :: 0 <= k < |frontRows| ==> frontRows[k] == rows[k];
      AboveIsSuffix(front, conversationId, after);
      if last.conversationId == conversationId {
        assert rows == frontRows + [last] && rows[|rows| - 1] == last;
      }
    }
  }

  lemma SuffixAscends(rows: seq<StoredMessage>, k: nat)
    requires Numbered(rows) && k <= |rows|
    ensures OrderBy(rows[k..], ServerSeq) == rows[k..]
  {
    forall i, j | 0 <= i < j < |rows[k..]| ensures ServerSeq(rows[k..][i]) <= ServerSeq(rows[k..][j]) {
      assert rows[k..][i] == rows[k + i] && rows[k..][j] == rows[k + j];
    }
    OrderByOfAscending(rows[k..], ServerSeq);
  }

  lemma LimitOfSuffix(rows: seq<StoredMessage>, k: nat, n: nat)
    requires k <= |rows|
    ensures Limit(rows[k..], n) == rows[k..Clamp(k + n, |rows|)]
  {
  }

  /** A page is the next stretch of the conversation. */
  lemma PageIsStretch(messages: seq<StoredMessage>, conversationId: string, after: int, limit: int)
    requires Numbered(InConversation(messages, conversationId))
    ensures var rows := InConversation(messages, conversationId);
            var k := Clamp(after, |rows|);
            MessagePage(messages, conversationId, after, limit) == rows[k..Clamp(k + Bounded(limit), |rows|)]
  {
    hide OrderBy, Limit, Above, InConversation, Numbered, Clamp;
    var rows := InConversation(messages, conversationId);
    AboveIsSuffix(messages, conversationId, after);
    SuffixAscends(rows, Clamp(after, |rows|));
    LimitOfSuffix(rows, Clamp(after, |rows|), Bounded(limit));
  }

  lemma {:induction false} CursorOfStretch(rows: seq<StoredMessage>, from: nat, to: nat)
    requires Numbered(rows) && from < to <= |rows|
    ensures NextAfterSeq(rows[from..to]) == to
  {
    assert rows[from..to][..to - from - 1] == rows[from..to - 1];
    if from < to - 1 { CursorOfStretch(rows, from, to - 1); }
  }

  // ------------------------------------------------------ a client that fetches page after page

  datatype Pager = Pager(after: int, collected: seq<StoredMessage>)

  /** Fetch one page and follow its cursor; an empty page ends the fetching and moves nothing. */
  function Fetch(t: Tables, conversationId: string, p: Pager, limit: int): Pager {
    var page := MessagePage(t.messages, conversationId, p.after, limit);
    if page == [] then p else Pager(NextAfterSeq(page), p.collected + page)
  }

  datatype Step = Call(op: Op) | FetchStep(limit: int)

  datatype Fetching = Fetching(tables: Tables, pager: Pager)

  function Next(w: Fetching, conversationId: string, step: Step): Fetching {
    match step
    case Call(op) => w.(tables := Apply(w.tables, op))
    case FetchStep(limit) => w.(pager := Fetch(w.tables, conversationId, w.pager, limit))
  }

  function Steps(w: Fetching, conversationId: string, steps: seq<Step>): Fetching {
    if steps == [] then w else Next(Steps(w, conversationId, steps[..|steps| - 1]), conversationId, steps[|steps| - 1])
  }

  predicate ValidSteps(steps: seq<Step>) {
    forall i :: 0 <= i < |steps| ==> steps[i].Call? ==> ValidOp(steps[i].op)
  }

  /** So far the pager holds exactly the stretch from its start to its cursor. */
  predicate Collected(t: Tables, conversationId: string, start: nat, p: Pager) {
    var rows := InConversation(t.messages, conversationId);
    && start <= p.after
    && (if start <= |rows| then p.after <= |rows| && p.collected == rows[start..p.after]
        else p.after == start && p.collected == [])
  }

  lemma {:induction false} PrefixGrows(messages: seq<StoredMessage>, more: seq<StoredMessage>, conversationId: string)
    ensures InConversation(messages, conversationId) <= InConversation(messages + more, conversationId)
  {
    if more != [] {
      PrefixGrows(messages, more[..|more| - 1], conversationId);
      assert (messages + more)[..|messages| + |more| - 1] == messages + more[..|more| - 1];
    } else {
      assert messages + more == messages;
    }
  }

  lemma FetchCollects(t: Tables, conversationId: string, start: nat, p: Pager, limit: int)
    requires Sequenced(t.messages) && Collected(t, conversationId, start, p)
    ensures Collected(t, conversationId, start, Fetch(t, conversationId, p, limit))
    ensures Fetch(t, conversationId, p, limit) == p <==> p.after >= |InConversation(t.messages, conversationId)|
    ensures Fetch(t, conversationId, p, limit) != p ==> Fetch(t, conversationId, p, limit).after > p.after
  {
    hide InConversation, MessagePage, NextAfterSeq;
    var rows := InConversation(t.messages, conversationId);
    assert Numbered(rows);
    PageIsStretch(t.messages, conversationId, p.after, limit);
    var k := Clamp(p.after, |rows|);
    var to := Clamp(k + Bounded(limit), |rows|);
    if k < to {
      CursorOfStretch(rows, k, to);
      assert rows[start..p.after] + rows[p.after..to] == rows[start..to];
    }
  }

  lemma CallKeepsCollected(t: Tables, conversationId: string, start: nat, p: Pager, op: Op)
    requires Collected(t, conversationId, start, p)
    ensures Collected(Apply(t, op), conversationId, start, p)
  {
    hide InConversation, Apply;
    ApplyAdvances(t, op);
    var t' := Apply(t, op);
    PrefixGrows(t.messages, t'.messages[|t.messages|..], conversationId);
    assert t'.messages == t.messages + t'.messages[|t.messages|..];
    var rows, rows' := InConversation(t.messages, conversationId), InConversation(t'.messages, conversationId);
    if start <= |rows| {
      assert rows'[start..p.after] == rows[start..p.after];
    } else if start <= |rows'| {
      assert rows'[start..p.after] == [];
    }
  }

  /** Whatever is stored between the fetches, the pager holds the stretch from its start to its cursor: nothing
    * twice, nothing skipped. */
  lemma {:induction false} PagesAreContiguous(t: Tables, conversationId: string, start: nat, steps: seq<Step>)
    requires Inv(t) && ValidSteps(steps)
    ensures var w := Steps(Fetching(t, Pager(start, [])), conversationId, steps);
            Inv(w.tables) && Collected(w.tables, conversationId, start, w.pager)
  {
    hide Inv, Apply, Fetch, InConversation;
    if steps == [] {
    } else {
      PagesAreContiguous(t, conversationId, start, steps[..|steps| - 1]);
      var w := Steps(Fetching(t, Pager(start, [])), conversationId, steps[..|steps| - 1]);
      match steps[|steps| - 1]
      case Call(op) => ApplyKeepsInv(w.tables, op); CallKeepsCollected(w.tables, conversationId, start, w.pager, op);
      case FetchStep(limit) => NumberedIn(w.tables); FetchCollects(w.tables, conversationId, start, w.pager, limit);
    }
  }

  lemma NumberedIn(t: Tables)
    requires Inv(t)
    ensures Sequenced(t.messages)
  {
  }

  /**
   * Paging is complete: when a fetch comes back empty, the pager has exactly the messages whose
   * number is above the start, in order, each once.
   */
  lemma PagingIsComplete(t: Tables, conversationId: string, start: nat, steps: seq<Step>, limit: int)
    requires Inv(t) && ValidSteps(steps)
    ensures var w := Steps(Fetching(t, Pager(start, [])), conversationId, steps);
            MessagePage(w.tables.messages, conversationId, w.pager.after, limit) == [] ==>
              w.pager.collected == Above(w.tables.messages, conversationId, start)
  {
    hide Inv, Steps;
    PagesAreContiguous(t, conversationId, start, steps);
    var w := Steps(Fetching(t, Pager(start, [])), conversationId, steps);
    NumberedIn(w.tables);
    if MessagePage(w.tables.messages, conversationId, w.pager.after, limit) == [] {
      EmptyPageEnds(w.tables, conversationId, start, w.pager, limit);
    }
  }

  lemma EmptyPageEnds(t: Tables, conversationId: string, start: nat, p: Pager, limit: int)
    requires Sequenced(t.messages) && Collected(t, conversationId, start, p)
    requires MessagePage(t.messages, conversationId, p.after, limit) == []
    ensures p.collected == Above(t.messages, conversationId, start)
  {
    hide InConversation, MessagePage, Above;
    var rows := InConversation(t.messages, conversationId);
    assert Numbered(rows);
    PageIsStretch(t.messages, conversationId, p.after, limit);
    AboveIsSuffix(t.messages, conversationId, start);
  }

  function Fetches(t: Tables, conversationId: string, p: Pager, limits: seq<int>): Pager {
    if limits == [] then p
    else Fetch(t, conversationId, Fetches(t, conversationId, p, limits[..|limits| - 1]), limits[|limits| - 1])
  }

  /** Once stores stop, fetching ends: after as many fetches as there are messages the next page is empty, for any
    * limits. */
  lemma {:induction false} FetchingEnds(t: Tables, conversationId: string, start: nat, p: Pager, limits: seq<int>,
                                        limit: int)
    requires Sequenced(t.messages) && Collected(t, conversationId, start, p)
    ensures Collected(t, conversationId, start, Fetches(t, conversationId, p, limits))
    ensures Fetches(t, conversationId, p, limits).after
            >= Min(p.after + |limits|, |InConversation(t.messages, conversationId)|)
    ensures |limits| >= |InConversation(t.messages, conversationId)| ==>
              MessagePage(t.messages, conversationId, Fetches(t, conversationId, p, limits).after, limit) == []
  {
    hide InConversation, MessagePage, Fetch;
    if limits == [] {
    } else {
      var q := Fetches(t, conversationId, p, limits[..|limits| - 1]);
      FetchingEnds(t, conversationId, start, p, limits[..|limits| - 1], limit);
      FetchCollects(t, conversationId, start, q, limits[|limits| - 1]);
    }
    assert Numbered(InConversation(t.messages, conversationId));
    PageIsStretch(t.messages, conversationId, Fetches(t, conversationId, p, limits).after, limit);
  }

  /** The cursor of an empty page points back to the beginning: a client that followed it would fetch everything
    * again. */
  lemma EmptyPageRewinds(t: Tables, conversationId: string, limit: int)
    requires Sequenced(t.messages)
    ensures MessagePage(t.messages, conversationId, NextAfterSeq([]), limit)
            == Limit(InConversation(t.messages, conversationId), Bounded(limit))
  {
    hide MessagePage, InConversation, Limit, Clamp;
    var rows := InConversation(t.messages, conversationId);
    assert Numbered(rows);
    PageIsStretch(t.messages, conversationId, 0, limit);
    LimitOfSuffix(rows, 0, Bounded(limit));
    assert Clamp(0, |rows|) == 0 && rows[0..] == rows by { ClampZero(|rows|); }
  }

  lemma ClampZero(n: nat)
    ensures Clamp(0, n) == 0
  {
  }
}
