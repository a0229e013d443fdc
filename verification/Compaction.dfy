/** The cursor of context compaction: which messages the newest valid summary replaces. */
module Compaction {
  import opened Basics

  type MessageId = nat  // ordered as its canonical text
  type Time = int

  datatype Kind = System | Conversational

  // Metadata that validated; anything else counts as absent.
  datatype Meta = Meta(throughId: MessageId, throughCreatedAt: Time)

  datatype Message = Message(id: MessageId, createdAt: Time, kind: Kind, isSummaryContent: bool, meta: Option<Meta>)

  datatype Cursor = Cursor(summary: Message, boundary: Message)

  predicate Before(a: Message, b: Message) {
    a.createdAt < b.createdAt || (a.createdAt == b.createdAt && a.id < b.id)
  }

  predicate IsSummary(m: Message) {
    m.kind.System? && m.isSummaryContent
  }

  // ---------- the operations ----------

  // Stable insertion: after every message at the same position.
  function Insert(sorted: seq<Message>, m: Message): seq<Message> {
    if sorted == [] then [m]
    else if Before(m, sorted[|sorted| - 1]) then Insert(sorted[..|sorted| - 1], m) + [sorted[|sorted| - 1]]
    else sorted + [m]
  }

  function Ordered(messages: seq<Message>): seq<Message> {
    if messages == [] then [] else Insert(Ordered(messages[..|messages| - 1]), messages[|messages| - 1])
  }

  function LastSummary(ordered: seq<Message>): Option<Message> {
    if ordered == [] then None
    else if IsSummary(ordered[|ordered| - 1]) then Some(ordered[|ordered| - 1])
    else LastSummary(ordered[..|ordered| - 1])
  }

  // A later message with the same id replaces an earlier one.
  function ById(messages: seq<Message>): map<MessageId, Message> {
    if messages == [] then map[]
    else ById(messages[..|messages| - 1])[messages[|messages| - 1].id := messages[|messages| - 1]]
  }

  function LatestCompaction(messages: seq<Message>): Option<Cursor> {
    var summary := LastSummary(Ordered(messages));
    if summary.None? || summary.value.meta.None? then None
    else
      var meta, byId := summary.value.meta.value, ById(messages);
      if meta.throughId !in byId then None
      else
        var boundary := byId[meta.throughId];
        if boundary.kind.System? || boundary.createdAt != meta.throughCreatedAt || !Before(boundary, summary.value)
        then None
        else Some(Cursor(summary.value, boundary))
  }

  // The conversational messages after a boundary, or all of them.
  function After(ordered: seq<Message>, boundary: Option<Message>): seq<Message> {
    if ordered == [] then []
    else
      var m := ordered[|ordered| - 1];
      After(ordered[..|ordered| - 1], boundary)
      + if m.kind.System? || (boundary.Some? && !Before(boundary.value, m)) then [] else [m]
  }

  function BoundaryOf(cursor: Option<Cursor>): Option<Message> {
    if cursor.Some? then Some(cursor.value.boundary) else None
  }

  function Uncompacted(messages: seq<Message>): seq<Message> {
    var ordered := Ordered(messages);
    After(ordered, BoundaryOf(LatestCompaction(ordered)))
  }

  function ContextMessages(messages: seq<Message>): seq<Message> {
    var cursor := LatestCompaction(messages);
    (if cursor.Some? then [cursor.value.summary] else []) + Uncompacted(messages)
  }

  // ---------- order ----------

  ghost predicate UniqueIds(messages: seq<Message>) {
    forall i, j :: 0 <= i < j < |messages| ==> messages[i].id != messages[j].id
  }

  ghost predicate Ascending(messages: seq<Message>) {
    forall i, j :: 0 <= i < j < |messages| ==> Before(messages[i], messages[j])
  }

  lemma {:induction false} InsertAdds(sorted: seq<Message>, m: Message)
    ensures multiset(Insert(sorted, m)) == multiset(sorted) + multiset{m}
  {
    if sorted != [] {
      var n := |sorted| - 1;
      assert sorted == sorted[..n] + [sorted[n]];
      InsertAdds(sorted[..n], m);
    }
  }

  lemma {:induction false} InsertIsAscending(sorted: seq<Message>, m: Message)
    requires Ascending(sorted)
    requires forall i :: 0 <= i < |sorted| ==> sorted[i].id != m.id
    ensures Ascending(Insert(sorted, m))
    ensures forall x :: x in Insert(sorted, m) ==> x == m || x in sorted
  {
    if sorted != [] {
      var n := |sorted| - 1;
      var last := sorted[n];
      if Before(m, last) {
        InsertIsAscending(sorted[..n], m);
        var inner := Insert(sorted[..n], m);
        forall i | 0 <= i < |inner| ensures Before(inner[i], last) {
          assert inner[i] in inner;
          if inner[i] != m {
            var k :| 0 <= k < n && sorted[..n][k] == inner[i];
            assert Before(sorted[k], sorted[n]);
          }
        }
        assert Insert(sorted, m) == inner + [last];
      } else {
        forall i | 0 <= i < |sorted| ensures Before(sorted[i], m) {
          if i < n {
            assert Before(sorted[i], sorted[n]);
          }
        }
      }
    }
  }

  lemma {:induction false} OrderedIsSortedPermutation(messages: seq<Message>)
    requires UniqueIds(messages)
    ensures Ascending(Ordered(messages)) && multiset(Ordered(messages)) == multiset(messages)
    ensures forall i, j :: 0 <= i < j < |Ordered(messages)| ==>
              var a, b := Ordered(messages)[i], Ordered(messages)[j];
              a.createdAt < b.createdAt || (a.createdAt == b.createdAt && a.id < b.id)
  {
    if messages != [] {
      var n := |messages| - 1;
      var earlier := messages[..n];
      OrderedIsSortedPermutation(earlier);
      assert messages == earlier + [messages[n]];
      forall i | 0 <= i < |Ordered(earlier)| ensures Ordered(earlier)[i].id != messages[n].id {
        assert Ordered(earlier)[i] in multiset(earlier);
      }
      InsertIsAscending(Ordered(earlier), messages[n]);
      InsertAdds(Ordered(earlier), messages[n]);
    }
  }

  lemma {:induction false} MembersAgree(a: seq<Message>, b: seq<Message>, m: Message)
    requires multiset(a) == multiset(b) && m in a
    ensures m in b
  {
    assert m in multiset(a);
  }

  lemma {:induction false} LastAgrees(a: seq<Message>, b: seq<Message>)
    requires Ascending(a) && Ascending(b) && multiset(a) == multiset(b) && a != []
    ensures b != [] && a[|a| - 1] == b[|b| - 1]
  {
    var x := a[|a| - 1];
    MembersAgree(a, b, x);
    var i :| 0 <= i < |b| && b[i] == x;
    var y := b[|b| - 1];
    MembersAgree(b, a, y);
    var j :| 0 <= j < |a| && a[j] == y;
    assert x == y || Before(x, y);
    assert x == y || Before(y, x);
  }

  lemma {:induction false} WithoutLast(a: seq<Message>)
    requires a != []
    ensures multiset(a[..|a| - 1]) == multiset(a) - multiset{a[|a| - 1]}
    ensures a == a[..|a| - 1] + [a[|a| - 1]]
  {
    assert a == a[..|a| - 1] + [a[|a| - 1]];
  }

  // A set of messages has one ascending order.
  lemma {:induction false} AscendingIsUnique(a: seq<Message>, b: seq<Message>)
    requires Ascending(a) && Ascending(b) && multiset(a) == multiset(b)
    ensures a == b
    decreases |a|
  {
    if a == [] {
      assert |multiset(b)| == |b|;
    } else {
      LastAgrees(a, b);
      WithoutLast(a);
      WithoutLast(b);
      AscendingIsUnique(a[..|a| - 1], b[..|b| - 1]);
    }
  }

  lemma {:induction false} ByIdFinds(messages: seq<Message>)
    requires UniqueIds(messages)
    ensures forall id, m :: (id in ById(messages) && ById(messages)[id] == m) <==> (m in messages && m.id == id)
  {
    if messages != [] {
      var n := |messages| - 1;
      assert messages == messages[..n] + [messages[n]];
      ByIdFinds(messages[..n]);
      forall m | m in messages[..n] ensures m.id != messages[n].id {
        var i :| 0 <= i < n && messages[i] == m;
      }
    }
  }

  lemma {:induction false} SameMessagesSameIds(a: seq<Message>, b: seq<Message>)
    requires multiset(a) == multiset(b) && UniqueIds(a)
    ensures UniqueIds(b)
  {
    forall i, j | 0 <= i < j < |b| ensures b[i].id != b[j].id {
      if b[i].id == b[j].id {
        assert b[i] in multiset(a) && b[j] in multiset(a);
        var x :| 0 <= x < |a| && a[x] == b[i];
        var y :| 0 <= y < |a| && a[y] == b[j];
        assert x == y;
        TwiceInMultiset(b, i, j);
        OnceInMultiset(a, x);
      }
    }
  }

  lemma {:induction false} TwiceInMultiset(s: seq<Message>, i: nat, j: nat)
    requires i < j < |s| && s[i] == s[j]
    ensures multiset(s)[s[i]] >= 2
  {
    assert s == s[..j] + [s[j]] + s[j + 1..];
    assert s[..j][i] == s[i];
    assert s[i] in multiset(s[..j]);
  }

  lemma {:induction false} OnceInMultiset(s: seq<Message>, i: nat)
    requires UniqueIds(s) && i < |s|
    ensures multiset(s)[s[i]] == 1
  {
    assert s == s[..i] + [s[i]] + s[i + 1..];
    assert s[i] !in s[..i] && s[i] !in s[i + 1..];
  }

  // ---------- main results ----------

  // The cursor, and so the uncompacted and the context messages, do not depend on input order.
  lemma {:induction false} InputOrderDoesNotMatter(a: seq<Message>, b: seq<Message>)
    requires multiset(a) == multiset(b) && UniqueIds(a)
    ensures LatestCompaction(a) == LatestCompaction(b)
    ensures Uncompacted(a) == Uncompacted(b) && ContextMessages(a) == ContextMessages(b)
  {
    SameMessagesSameIds(a, b);
    OrderedIsSortedPermutation(a);
    OrderedIsSortedPermutation(b);
    AscendingIsUnique(Ordered(a), Ordered(b));
    ByIdIgnoresOrder(a, b);
  }

  lemma {:induction false} ByIdIgnoresOrder(a: seq<Message>, b: seq<Message>)
    requires multiset(a) == multiset(b) && UniqueIds(a) && UniqueIds(b)
    ensures ById(a) == ById(b)
  {
    ByIdFinds(a);
    ByIdFinds(b);
    forall m ensures m in a <==> m in b {
      assert m in a <==> m in multiset(a);
      assert m in b <==> m in multiset(b);
    }
    forall id ensures id in ById(a) <==> id in ById(b) {
      if id in ById(a) { assert ById(a)[id] in b; }
      if id in ById(b) { assert ById(b)[id] in a; }
    }
  }

  lemma {:induction false} CursorOfOrdered(messages: seq<Message>)
    requires UniqueIds(messages)
    ensures LatestCompaction(Ordered(messages)) == LatestCompaction(messages)
  {
    OrderedIsSortedPermutation(messages);
    InputOrderDoesNotMatter(messages, Ordered(messages));
  }

  function Conversation(ordered: seq<Message>): seq<Message> {
    After(ordered, None)
  }

  // Where an ascending history passes a boundary.
  ghost predicate CutsAt(ordered: seq<Message>, boundary: Message, cut: nat) {
    cut <= |ordered| && forall i :: 0 <= i < |ordered| ==> (Before(boundary, ordered[i]) <==> i >= cut)
  }

  lemma {:induction false} FindCut(ordered: seq<Message>, boundary: Message) returns (cut: nat)
    requires Ascending(ordered)
    ensures CutsAt(ordered, boundary, cut)
  {
    if ordered == [] {
      cut := 0;
    } else {
      var n := |ordered| - 1;
      cut := FindCut(ordered[..n], boundary);
      assert forall i :: 0 <= i < n ==> ordered[..n][i] == ordered[i];
      if !Before(boundary, ordered[n]) {
        forall i | 0 <= i < n ensures !Before(boundary, ordered[i]) {
          assert Before(ordered[i], ordered[n]);
        }
        cut := n + 1;
      }
    }
  }

  lemma {:induction false} AfterAtCut(ordered: seq<Message>, boundary: Message, cut: nat)
    requires CutsAt(ordered, boundary, cut)
    ensures After(ordered, Some(boundary)) == Conversation(ordered[cut..])
  {
    if ordered != [] {
      var n := |ordered| - 1;
      if cut <= n {
        assert ordered[cut..][..n - cut] == ordered[..n][cut..];
        assert ordered[cut..][n - cut] == ordered[n];
        AfterAtCut(ordered[..n], boundary, cut);
      } else {
        AfterAtCut(ordered[..n], boundary, n);
        assert ordered[..n][n..] == [] == ordered[cut..];
      }
    }
  }

  lemma {:induction false} ConversationSplits(ordered: seq<Message>, cut: nat)
    requires cut <= |ordered|
    ensures Conversation(ordered) == Conversation(ordered[..cut]) + Conversation(ordered[cut..])
  {
    if cut == |ordered| {
      assert ordered[..cut] == ordered && ordered[cut..] == [];
    } else {
      var n := |ordered| - 1;
      ConversationSplits(ordered[..n], cut);
      assert ordered[..n][..cut] == ordered[..cut];
      assert ordered[cut..][..n - cut] == ordered[..n][cut..];
      assert ordered[cut..][n - cut] == ordered[n];
    }
  }

  // The uncompacted messages are the end of the ordered conversation: with a valid newest summary, what lies
  // after its boundary; without one, all of it. Nothing is lost or repeated.
  lemma {:induction false} UncompactedIsTheRest(messages: seq<Message>) returns (cut: nat)
    requires UniqueIds(messages)
    ensures
      var ordered := Ordered(messages);
      && cut <= |ordered|
      && Uncompacted(messages) == Conversation(ordered[cut..])
      && Conversation(ordered) == Conversation(ordered[..cut]) + Uncompacted(messages)
      && (LatestCompaction(messages).None? ==> Uncompacted(messages) == Conversation(ordered))
      && (LatestCompaction(messages).Some? ==> CutsAt(ordered, LatestCompaction(messages).value.boundary, cut))
  {
    OrderedIsSortedPermutation(messages);
    CursorOfOrdered(messages);
    var cursor := LatestCompaction(messages);
    if cursor.Some? {
      cut := FindCut(Ordered(messages), cursor.value.boundary);
      AfterAtCut(Ordered(messages), cursor.value.boundary, cut);
    } else {
      cut := 0;
      assert Ordered(messages)[0..] == Ordered(messages);
    }
    ConversationSplits(Ordered(messages), cut);
  }

  // The newest summary, if its metadata names a conversational message before it at the recorded time.
  ghost predicate IsCursor(messages: seq<Message>, c: Cursor) {
    && c.summary in messages && c.summary.kind.System? && c.summary.isSummaryContent
    && (forall m :: m in messages && m.kind.System? && m.isSummaryContent ==> m == c.summary || Before(m, c.summary))
    && c.boundary in messages && c.boundary.kind.Conversational? && Before(c.boundary, c.summary)
    && c.summary.meta == Some(Meta(c.boundary.id, c.boundary.createdAt))
  }

  lemma {:induction false} CursorExactly(messages: seq<Message>, c: Cursor)
    requires UniqueIds(messages)
    ensures LatestCompaction(messages) == Some(c) <==> IsCursor(messages, c)
  {
    OrderedIsSortedPermutation(messages);
    OrderedHolds(messages);
    LastSummaryIsNewest(Ordered(messages), c.summary);
    ByIdFinds(messages);
  }

  lemma {:induction false} OrderedHolds(messages: seq<Message>)
    requires UniqueIds(messages)
    ensures forall m :: m in Ordered(messages) <==> m in messages
  {
    OrderedIsSortedPermutation(messages);
    forall m ensures m in Ordered(messages) <==> m in messages {
      assert m in messages <==> m in multiset(messages);
      assert m in Ordered(messages) <==> m in multiset(Ordered(messages));
    }
  }

  lemma {:induction false} LastSummaryIsNewest(ordered: seq<Message>, s: Message)
    requires Ascending(ordered)
    ensures LastSummary(ordered) == Some(s) <==>
              s in ordered && IsSummary(s) && forall m :: m in ordered && IsSummary(m) ==> m == s || Before(m, s)
  {
    if ordered != [] {
      var n := |ordered| - 1;
      LastSummaryIsNewest(ordered[..n], s);
      assert ordered == ordered[..n] + [ordered[n]];
      forall m | m in ordered[..n] ensures Before(m, ordered[n]) {
        var i :| 0 <= i < n && ordered[i] == m;
      }
    }
  }

  // The uncompacted messages are exactly the conversational ones past the boundary, in order, each once.
  lemma {:induction false} UncompactedExactly(messages: seq<Message>)
    requires UniqueIds(messages)
    ensures
      var cursor := LatestCompaction(messages);
      && Ascending(Uncompacted(messages))
      && (forall m :: m in Uncompacted(messages) <==>
            m in messages && m.kind.Conversational? && (cursor.Some? ==> Before(cursor.value.boundary, m)))
  {
    OrderedIsSortedPermutation(messages);
    OrderedHolds(messages);
    CursorOfOrdered(messages);
    AfterFilters(Ordered(messages), BoundaryOf(LatestCompaction(messages)));
  }

  // The context is led by a valid newest summary and goes on with what it did not replace; without one it is the
  // conversation.
  lemma {:induction false} ContextExactly(messages: seq<Message>)
    requires UniqueIds(messages)
    ensures forall c :: IsCursor(messages, c) ==>
              && ContextMessages(messages) == [c.summary] + Uncompacted(messages)
              && c.summary !in Uncompacted(messages)
    ensures (forall c :: !IsCursor(messages, c)) ==>
              forall m :: m in ContextMessages(messages) <==> m in messages && m.kind.Conversational?
  {
    UncompactedExactly(messages);
    forall c | IsCursor(messages, c) ensures LatestCompaction(messages) == Some(c) {
      CursorExactly(messages, c);
    }
    if LatestCompaction(messages).Some? {
      CursorExactly(messages, LatestCompaction(messages).value);
    }
  }

  lemma {:induction false} AfterFilters(ordered: seq<Message>, boundary: Option<Message>)
    requires Ascending(ordered)
    ensures Ascending(After(ordered, boundary))
    ensures forall m :: m in After(ordered, boundary) <==>
              m in ordered && m.kind.Conversational? && (boundary.Some? ==> Before(boundary.value, m))
  {
    if ordered != [] {
      var n := |ordered| - 1;
      var earlier := After(ordered[..n], boundary);
      AfterFilters(ordered[..n], boundary);
      assert ordered == ordered[..n] + [ordered[n]];
      forall i | 0 <= i < |earlier| ensures Before(earlier[i], ordered[n]) {
        assert earlier[i] in earlier;
        var k :| 0 <= k < n && ordered[k] == earlier[i];
      }
    }
  }

  // ---------- runs ----------

  // A history grows by later messages, and by summaries whose boundary is the i-th message so far.
  datatype Event = Append(message: Message) | Summarise(summary: Message, through: nat)

  ghost predicate Later(history: seq<Message>, m: Message) {
    forall i :: 0 <= i < |history| ==> Before(history[i], m) && history[i].id != m.id
  }

  ghost predicate Admissible(history: seq<Message>, e: Event) {
    match e
    case Append(m) => Later(history, m) && !IsSummary(m)
    case Summarise(s, through) =>
      && Later(history, s) && IsSummary(s)
      && through < |history| && history[through].kind.Conversational?
      && s.meta == Some(Meta(history[through].id, history[through].createdAt))
  }

  function Added(e: Event): Message {
    match e case Append(m) => m case Summarise(s, _) => s
  }

  function History(events: seq<Event>): seq<Message> {
    if events == [] then [] else History(events[..|events| - 1]) + [Added(events[|events| - 1])]
  }

  ghost predicate AdmissibleRun(events: seq<Event>) {
    events == [] ||
    var earlier := events[..|events| - 1];
    AdmissibleRun(earlier) && Admissible(History(earlier), events[|events| - 1])
  }

  // The reference: a cut that each summary moves to just after its boundary.
  function CutAfter(events: seq<Event>): nat {
    if events == [] then 0
    else match events[|events| - 1]
      case Append(_) => CutAfter(events[..|events| - 1])
      case Summarise(_, through) => through + 1
  }

  // The cut is where the newest summary of the history says it is.
  ghost predicate Tracks(history: seq<Message>, cut: nat) {
    && Ascending(history) && UniqueIds(history) && cut <= |history|
    && (LastSummary(history).None? <==> cut == 0)
    && (cut > 0 ==>
          var boundary, summary := history[cut - 1], LastSummary(history).value;
          && boundary.kind.Conversational? && Before(boundary, summary)
          && summary.meta == Some(Meta(boundary.id, boundary.createdAt)))
  }

  lemma {:induction false} RunTracks(events: seq<Event>)
    requires AdmissibleRun(events)
    ensures Tracks(History(events), CutAfter(events))
  {
    if events != [] {
      var earlier, e := events[..|events| - 1], events[|events| - 1];
      RunTracks(earlier);
      AddedTracks(History(earlier), CutAfter(earlier), e);
    }
  }

  lemma {:induction false} AddedTracks(history: seq<Message>, cut: nat, e: Event)
    requires Tracks(history, cut) && Admissible(history, e)
    ensures Tracks(history + [Added(e)], match e case Append(_) => cut case Summarise(_, through) => through + 1)
  {
    var longer := history + [Added(e)];
    assert longer[..|longer| - 1] == history;
  }

  lemma {:induction false} AscendingIsOrdered(history: seq<Message>)
    requires Ascending(history) && UniqueIds(history)
    ensures Ordered(history) == history
  {
    OrderedIsSortedPermutation(history);
    AscendingIsUnique(Ordered(history), history);
  }

  lemma {:induction false} CursorOfRun(history: seq<Message>, cut: nat)
    requires Tracks(history, cut)
    ensures Ordered(history) == history
    ensures BoundaryOf(LatestCompaction(history)) == if cut == 0 then None else Some(history[cut - 1])
  {
    AscendingIsOrdered(history);
    if cut > 0 {
      ByIdFinds(history);
      assert history[cut - 1] in history;
      assert ById(history)[history[cut - 1].id] == history[cut - 1];
    }
  }

  lemma {:induction false} CutsAtIndex(history: seq<Message>, i: nat)
    requires Ascending(history) && i < |history|
    ensures CutsAt(history, history[i], i + 1)
  {
    forall j | 0 <= j < |history| ensures Before(history[i], history[j]) <==> j >= i + 1 {
      if j < i {
        assert Before(history[j], history[i]);
      }
    }
  }

  // Over every run the uncompacted messages are the conversation past the cut of the newest summary.
  lemma {:induction false} UncompactedFollowsTheCut(events: seq<Event>)
    requires AdmissibleRun(events)
    ensures CutAfter(events) <= |History(events)|
    ensures Uncompacted(History(events)) == Conversation(History(events)[CutAfter(events)..])
  {
    RunTracks(events);
    UncompactedAt(History(events), CutAfter(events));
  }

  lemma {:induction false} UncompactedAt(history: seq<Message>, cut: nat)
    requires Tracks(history, cut)
    ensures Uncompacted(history) == Conversation(history[cut..])
  {
    CursorOfRun(history, cut);
    if cut > 0 {
      CutsAtIndex(history, cut - 1);
      AfterAtCut(history, history[cut - 1], cut);
    } else {
      assert history[0..] == history;
    }
  }

  // A message written later but placed at or before the boundary is never seen again.
  lemma {:induction false} EarlierPositionsAreSwallowed(messages: seq<Message>, m: Message)
    requires UniqueIds(messages) && LatestCompaction(messages).Some?
    requires !Before(LatestCompaction(messages).value.boundary, m)
    ensures m !in Uncompacted(messages)
  {
    CursorOfOrdered(messages);
    if m in Uncompacted(messages) {
      AfterIsBeyond(Ordered(messages), LatestCompaction(messages).value.boundary, m);
    }
  }

  lemma {:induction false} AfterIsBeyond(ordered: seq<Message>, boundary: Message, m: Message)
    requires m in After(ordered, Some(boundary))
    ensures Before(boundary, m)
  {
    if m in After(ordered[..|ordered| - 1], Some(boundary)) {
      AfterIsBeyond(ordered[..|ordered| - 1], boundary, m);
    }
  }
}
