/** Runs of the review protocol: pushes to the head, and comments posted, edited and deleted. */
module ReviewProtocol {
  import opened Wrappers
  import opened Sequences
  import opened GuardText
  import opened MarkerText
  import opened Markers
  import opened Reconciliation
  import opened Convergence
  import opened Manifest
  import opened WorkBlock
  import opened Snapshot
  import opened Guard
  import opened GuardMeaning

  /** Comments on the issue, comments on the diff, and bodies of reviews are numbered separately. */
  datatype Channel = OnIssue | OnDiff | InReview

  datatype Spot = Spot(channel: Channel, id: int)

  datatype Entry = Entry(spot: Spot, body: string)

  datatype Counters = Counters(issue: int, diff: int, review: int) {
    function Next(channel: Channel): int {
      match channel case OnIssue => issue case OnDiff => diff case InReview => review
    }

    function Bump(channel: Channel): Counters {
      match channel
      case OnIssue => this.(issue := issue + 1)
      case OnDiff => this.(diff := diff + 1)
      case InReview => this.(review := review + 1)
    }
  }

  /** The thread of a pull request, with the times a reader of the API does not see. */
  datatype Thread = Thread(
    head: string, entries: seq<Entry>, counters: Counters, clock: nat,
    pushedAt: nat, created: map<Spot, nat>, written: map<Spot, nat>)

  datatype Event =
    | Push(sha: string)
    | Post(channel: Channel, body: string)
    | Edit(spot: Spot, body: string)
    | Delete(spot: Spot)

  function Rewritten(entries: seq<Entry>, spot: Spot, body: string): seq<Entry> {
    Map((e: Entry) => if e.spot == spot then Entry(spot, body) else e, entries)
  }

  function Without(entries: seq<Entry>, spot: Spot): seq<Entry> {
    Filter((e: Entry) => e.spot != spot, entries)
  }

  /** Every event takes one tick of the clock, so event number j happens at time j + 1. */
  function After(t: Thread, e: Event): Thread {
    var now := t.clock + 1;
    match e
    case Push(sha) => t.(head := sha, pushedAt := now, clock := now)
    case Post(channel, body) =>
      var spot := Spot(channel, t.counters.Next(channel));
      t.(entries := t.entries + [Entry(spot, body)], counters := t.counters.Bump(channel), clock := now,
         created := t.created[spot := now], written := t.written[spot := now])
    case Edit(spot, body) =>
      t.(entries := Rewritten(t.entries, spot, body), clock := now,
         written := if spot in t.written then t.written[spot := now] else t.written)
    case Delete(spot) => t.(entries := Without(t.entries, spot), clock := now)
  }

  function CommentOf(e: Entry): Comment {
    Comment(e.spot.id, e.body)
  }

  function OfChannel(entries: seq<Entry>, channel: Channel): seq<Entry> {
    Filter((e: Entry) => e.spot.channel == channel, entries)
  }

  /** The order in which a live snapshot lists what the channels hold. */
  function Listed(entries: seq<Entry>): seq<Entry> {
    OfChannel(entries, OnIssue) + OfChannel(entries, OnDiff) + OfChannel(entries, InReview)
  }

  function CommentsOf(entries: seq<Entry>): seq<Comment> {
    Map(CommentOf, Listed(entries))
  }

  ghost predicate Speaks(e: Entry, sha: string) {
    exists m: MarkerRecord :: MarkerOf(CommentOf(e)) == Pass(Some(m)) && m.sha == sha
  }

  ghost predicate SpeaksAsReceipt(e: Entry, sha: string) {
    exists r: HumanReceipt :: HumanReceiptOf(CommentOf(e)) == Pass(Some(r)) && r.sha == sha
  }

  /** A pushed commit is new: no comment could have named it. */
  ghost predicate Legal(t: Thread, e: Event) {
    e.Push? ==> forall x | x in t.entries :: !Speaks(x, e.sha) && !SpeaksAsReceipt(x, e.sha)
  }

  predicate Initial(t: Thread) {
    t.entries == [] && t.clock == 0 && t.pushedAt == 0 && t.created == map[] && t.written == map[]
  }

  ghost predicate LegalRun(t: Thread, events: seq<Event>)
    decreases |events|
  {
    events == [] || (Legal(t, events[0]) && LegalRun(After(t, events[0]), events[1..]))
  }

  function Run(t: Thread, events: seq<Event>): Thread
    decreases |events|
  {
    if events == [] then t else Run(After(t, events[0]), events[1..])
  }

  // ----- The invariant -----

  /** In each channel ids follow creation, and every comment was written no earlier than it was created. */
  ghost predicate Dated(t: Thread) {
    && t.pushedAt <= t.clock
    && (forall x | x in t.entries :: x.spot in t.created)
    && TimesFit(t) && IdsFollow(t)
  }

  ghost predicate TimesFit(t: Thread) {
    && t.created.Keys == t.written.Keys
    && forall p | p in t.created ::
         p.id < t.counters.Next(p.channel) && 0 < t.created[p] <= t.written[p] <= t.clock
  }

  ghost predicate IdsFollow(t: Thread) {
    forall p, q | p in t.created && q in t.created && p.channel == q.channel ::
      p.id < q.id ==> t.created[p] < t.created[q]
  }

  /** What speaks of the head was written after the head was pushed. */
  ghost predicate HeadIsNews(t: Thread) {
    forall x | x in t.entries && (Speaks(x, t.head) || SpeaksAsReceipt(x, t.head)) :: WrittenSincePush(t, x.spot)
  }

  predicate WrittenSincePush(t: Thread, spot: Spot) {
    spot in t.written && t.pushedAt < t.written[spot]
  }

  /** Where the entries after an event come from. */
  lemma EntriesAfter(t: Thread, e: Event, x: Entry)
    requires x in After(t, e).entries
    ensures x in t.entries
      || (e.Post? && x == Entry(Spot(e.channel, t.counters.Next(e.channel)), e.body))
      || (e.Edit? && x == Entry(e.spot, e.body) && exists y :: y in t.entries && y.spot == e.spot)
    ensures e.Edit? && x.spot == e.spot ==> x.body == e.body
  {
    if e.Edit? {
      var k :| 0 <= k < |t.entries| && After(t, e).entries[k] == x;
      assert t.entries[k] in t.entries;
    }
  }

  lemma DatedAfterPost(t: Thread, channel: Channel, body: string)
    requires Dated(t)
    ensures Dated(After(t, Post(channel, body)))
  {
    hide TimesFit, IdsFollow, Counters.Next, Counters.Bump;
    var after := After(t, Post(channel, body));
    TimesAfterPost(t, channel, body);
    IdsAfterPost(t, channel, body);
    forall x | x in after.entries ensures x.spot in after.created {
      assert x in t.entries || x.spot == Spot(channel, t.counters.Next(channel));
    }
  }

  lemma BumpCounts(c: Counters, channel: Channel, other: Channel)
    ensures c.Bump(channel).Next(other) == c.Next(other) + if other == channel then 1 else 0
  {
  }

  lemma TimesAfterPost(t: Thread, channel: Channel, body: string)
    requires TimesFit(t)
    ensures TimesFit(After(t, Post(channel, body)))
  {
    hide Counters.Next, Counters.Bump;
    var after := After(t, Post(channel, body));
    forall p | p in after.created
      ensures p.id < after.counters.Next(p.channel) && 0 < after.created[p] <= after.written[p] <= after.clock
    {
      BumpCounts(t.counters, channel, p.channel);
    }
  }

  lemma IdsAfterPost(t: Thread, channel: Channel, body: string)
    requires TimesFit(t) && IdsFollow(t)
    ensures IdsFollow(After(t, Post(channel, body)))
  {
    hide Counters.Next, Counters.Bump;
    var after := After(t, Post(channel, body));
    forall p, q | p in after.created && q in after.created && p.channel == q.channel && p.id < q.id
      ensures after.created[p] < after.created[q]
    {
      assert p in t.created || p == Spot(channel, t.counters.Next(channel));
      assert q in t.created || q == Spot(channel, t.counters.Next(channel));
    }
  }

  lemma DatedAfterEdit(t: Thread, spot: Spot, body: string)
    requires Dated(t)
    ensures Dated(After(t, Edit(spot, body)))
  {
    hide Counters.Next, Rewritten;
    var after := After(t, Edit(spot, body));
    forall x | x in after.entries ensures x.spot in after.created {
      EntriesAfter(t, Edit(spot, body), x);
    }
  }

  lemma DatedHolds(t: Thread, e: Event)
    requires Dated(t)
    ensures Dated(After(t, e))
  {
    match e {
      case Push(sha) =>
        hide Counters.Next;
      case Post(channel, body) =>
        hide Dated;
        DatedAfterPost(t, channel, body);
      case Edit(spot, body) =>
        hide Dated;
        DatedAfterEdit(t, spot, body);
      case Delete(spot) =>
        hide Counters.Next;
        assert forall x | x in Without(t.entries, spot) :: x in t.entries;
    }
  }

  lemma NewsHolds(t: Thread, e: Event)
    requires Dated(t) && HeadIsNews(t) && Legal(t, e)
    ensures HeadIsNews(After(t, e))
  {
    hide Speaks, SpeaksAsReceipt, After, Dated, Legal;
    var after := After(t, e);
    forall x | x in after.entries && (Speaks(x, after.head) || SpeaksAsReceipt(x, after.head))
      ensures WrittenSincePush(after, x.spot)
    {
      SpeakerIsNews(t, e, x);
    }
  }

  lemma SpeakerIsNews(t: Thread, e: Event, x: Entry)
    requires Dated(t) && HeadIsNews(t) && Legal(t, e)
    requires x in After(t, e).entries && (Speaks(x, After(t, e).head) || SpeaksAsReceipt(x, After(t, e).head))
    ensures WrittenSincePush(After(t, e), x.spot)
  {
    hide Speaks, SpeaksAsReceipt, Rewritten, Without, Counters.Next, Counters.Bump, IdsFollow;
    EntriesAfter(t, e, x);
  }

  lemma {:induction false} RunHolds(t: Thread, events: seq<Event>)
    requires Dated(t) && HeadIsNews(t) && LegalRun(t, events)
    ensures Dated(Run(t, events)) && HeadIsNews(Run(t, events))
    decreases |events|
  {
    hide Dated, HeadIsNews, After, Legal;
    if events != [] {
      DatedHolds(t, events[0]);
      NewsHolds(t, events[0]);
      RunHolds(After(t, events[0]), events[1..]);
    }
  }

  ghost predicate Reachable(t: Thread) {
    exists start, events: seq<Event> :: Initial(start) && LegalRun(start, events) && Run(start, events) == t
  }

  lemma ReachableHolds(t: Thread)
    requires Reachable(t)
    ensures Dated(t) && HeadIsNews(t)
  {
    hide Dated, HeadIsNews;
    var start, events: seq<Event> :| Initial(start) && LegalRun(start, events) && Run(start, events) == t;
    StartHolds(start);
    RunHolds(start, events);
  }

  lemma StartHolds(t: Thread)
    requires Initial(t)
    ensures Dated(t) && HeadIsNews(t)
  {
  }

  // ----- What a final decision tells about the thread -----

  /** A snapshot taken of this thread. */
  predicate Shows(s: Snapshot, t: Thread) {
    s.comments == CommentsOf(t.entries) && s.pullRequest.Some? && s.pullRequest.value.headSha == t.head
  }

  lemma ShownFrom(entries: seq<Entry>, i: nat) returns (x: Entry)
    requires i < |CommentsOf(entries)|
    ensures x in entries && CommentOf(x) == CommentsOf(entries)[i]
  {
    x := Listed(entries)[i];
    assert x in Listed(entries);
  }

  lemma EntryIsShown(entries: seq<Entry>, x: Entry) returns (i: nat)
    requires x in entries
    ensures i < |CommentsOf(entries)| && CommentsOf(entries)[i] == CommentOf(x)
  {
    assert x in OfChannel(entries, x.spot.channel);
    assert x in Listed(entries);
    var k :| 0 <= k < |Listed(entries)| && Listed(entries)[k] == x;
    i := k;
  }

  lemma {:induction false} ReceiptSource(comments: seq<Comment>, r: HumanReceipt)
    requires Receipts(comments).Pass? && r in Receipts(comments).value
    ensures exists i :: 0 <= i < |comments| && HumanReceiptOf(comments[i]) == Pass(Some(r)) && comments[i].id == r.commentId
  {
    hide HumanReceiptOf;
    var n := |comments| - 1;
    if HumanReceiptOf(comments[n]) == Pass(Some(r)) {
      ReceiptId(comments[n], r);
    } else {
      ReceiptSource(comments[..n], r);
      var i :| 0 <= i < n && HumanReceiptOf(comments[..n][i]) == Pass(Some(r)) && comments[..n][i].id == r.commentId;
      assert comments[..n][i] == comments[i];
    }
  }

  lemma {:induction false} ReceiptIsListed(comments: seq<Comment>, k: nat, r: HumanReceipt)
    requires Receipts(comments).Pass? && k < |comments| && HumanReceiptOf(comments[k]) == Pass(Some(r))
    ensures r in Receipts(comments).value
  {
    hide HumanReceiptOf;
    var n := |comments| - 1;
    if k < n {
      ReceiptIsListed(comments[..n], k, r);
    }
  }

  lemma ReceiptId(c: Comment, r: HumanReceipt)
    requires HumanReceiptOf(c) == Pass(Some(r))
    ensures r.commentId == c.id
  {
    hide Contains, MatchBlock, LegalFields, FieldMap, ToLf;
  }

  /** An entry that a role's resolution takes into account. */
  ghost predicate IsMarker(x: Entry, role: Role) {
    exists m: MarkerRecord :: MarkerOf(CommentOf(x)) == Pass(Some(m)) && m.role == Some(role)
  }

  ghost predicate IsReceipt(x: Entry, decision: HumanDecision) {
    exists r: HumanReceipt :: HumanReceiptOf(CommentOf(x)) == Pass(Some(r)) && r.decision == decision
  }

  ghost predicate IsSomeReceipt(x: Entry) {
    exists r: HumanReceipt :: HumanReceiptOf(CommentOf(x)) == Pass(Some(r))
  }

  predicate CreatedBefore(t: Thread, earlier: Spot, later: Spot) {
    earlier in t.created && later in t.created && t.created[earlier] < t.created[later]
  }

  /** Every marker of a role that finalize relies on names the head and was written since its push. */
  ghost predicate RoleIsCurrent(t: Thread, role: Role) {
    && (exists x :: x in t.entries && IsMarker(x, role))
    && forall x | x in t.entries && IsMarker(x, role) :: Speaks(x, t.head) && WrittenSincePush(t, x.spot)
  }

  lemma MarkersAreNews(t: Thread, comments: seq<Comment>, role: Role, m: MarkerRecord, block: string)
    requires HeadIsNews(t) && comments == CommentsOf(t.entries) && AllMarkers(comments).Pass?
    requires SolePass(AllMarkers(comments).value, role, m, block, t.head)
    ensures RoleIsCurrent(t, role)
    ensures forall x | x in t.entries && IsMarker(x, role) :: x.spot.id == m.commentId
  {
    hide MarkerOf, AllMarkers, CommentsOf, SolePass, WrittenSincePush;
    SoleIsActive(AllMarkers(comments).value, role, m, block, t.head);
    ActiveMeans(AllMarkers(comments).value, role, m);
    RecordSource(comments, m);
    var i :| 0 <= i < |comments| && MarkerOf(comments[i]) == Pass(Some(m)) && comments[i].id == m.commentId;
    var source := ShownFrom(t.entries, i);
    assert IsMarker(source, role);
    forall x | x in t.entries && IsMarker(x, role)
      ensures Speaks(x, t.head) && WrittenSincePush(t, x.spot) && x.spot.id == m.commentId
    {
      var n: MarkerRecord :| MarkerOf(CommentOf(x)) == Pass(Some(n)) && n.role == Some(role);
      var k := EntryIsShown(t.entries, x);
      RecordIsListed(comments, k, n);
      ActiveMeans(AllMarkers(comments).value, role, n);
      SoleShares(AllMarkers(comments).value, role, m, block, t.head, n);
      ParsedId(CommentOf(x), n);
      assert Speaks(x, t.head);
    }
  }

  lemma ActiveMeans(ms: seq<MarkerRecord>, role: Role, m: MarkerRecord)
    ensures m in Active(ms, role) <==> m in ms && m.role == Some(role)
  {
  }

  lemma SoleShares(ms: seq<MarkerRecord>, role: Role, m: MarkerRecord, block: string, head: string, n: MarkerRecord)
    requires SolePass(ms, role, m, block, head) && n in Active(ms, role)
    ensures n.commentId == m.commentId && n.sha == head
  {
    SoleMeans(ms, role, m, block, head);
    assert SignatureOf(n) == SignatureOf(m);
  }

  /** Where a list has one receipt, every comment that is a receipt is that one. */
  lemma ReceiptsAreNews(t: Thread, comments: seq<Comment>, r: HumanReceipt)
    requires HeadIsNews(t) && comments == CommentsOf(t.entries) && Receipts(comments) == Pass([r]) && r.sha == t.head
    ensures exists x :: x in t.entries && IsSomeReceipt(x)
    ensures forall x | x in t.entries && IsSomeReceipt(x) ::
              x.spot.id == r.commentId && IsReceipt(x, r.decision) && WrittenSincePush(t, x.spot)
  {
    hide HumanReceiptOf, CommentsOf, Receipts;
    assert r in [r];
    ReceiptSource(comments, r);
    var i :| 0 <= i < |comments| && HumanReceiptOf(comments[i]) == Pass(Some(r)) && comments[i].id == r.commentId;
    var source := ShownFrom(t.entries, i);
    assert IsSomeReceipt(source);
    forall x | x in t.entries && IsSomeReceipt(x)
      ensures x.spot.id == r.commentId && IsReceipt(x, r.decision) && WrittenSincePush(t, x.spot)
    {
      var n: HumanReceipt :| HumanReceiptOf(CommentOf(x)) == Pass(Some(n));
      var k := EntryIsShown(t.entries, x);
      ReceiptIsListed(comments, k, n);
      assert n == r;
      ReceiptId(CommentOf(x), n);
      assert SpeaksAsReceipt(x, t.head);
    }
  }

  /**
   * `receipt` answers every audit comment by id, which says when it was created only among comments of
   * its own channel.
   */
  ghost predicate Answers(t: Thread, receipt: Entry) {
    forall x | x in t.entries && IsMarker(x, AuditRole) ::
      && x.spot.id < receipt.spot.id
      && (x.spot.channel == receipt.spot.channel ==> CreatedBefore(t, x.spot, receipt.spot))
  }

  function DecisionOf(d: Decision): Option<HumanDecision> {
    match d case HumanAuthorized => Some(Approve) case HumanRejected => Some(Reject) case _ => None
  }

  /** The receipts of the thread give this decision, for the head and after the audit. */
  ghost predicate HasAnswer(t: Thread, decision: HumanDecision) {
    && (exists x :: x in t.entries && IsSomeReceipt(x))
    && forall x | x in t.entries && IsSomeReceipt(x) ::
         IsReceipt(x, decision) && WrittenSincePush(t, x.spot) && Answers(t, x)
  }

  lemma CaseIsCurrent(
    t: Thread, s: Snapshot, world: World, w: WorkBlock, m: AcceptanceManifest, build: MarkerRecord, audit: MarkerRecord,
    d: Decision)
    requires Dated(t) && HeadIsNews(t) && Shows(s, t) && FinalCase(s, world, w, m, build, audit, d)
    ensures RoleIsCurrent(t, BuildRole) && RoleIsCurrent(t, AuditRole)
    ensures DecisionOf(d).Some? ==> HasAnswer(t, DecisionOf(d).value)
  {
    hide MarkerOf, AllMarkers, HumanReceiptOf, Receipts, FinalizeGrounds, HeadIsNews, SolePass, CommentsOf, IsMarker,
         IsReceipt, IsSomeReceipt, RoleIsCurrent;
    GroundsNameMarkers(s, world, w, m, build, audit);
    MarkersAreNews(t, s.comments, BuildRole, build, w.block);
    MarkersAreNews(t, s.comments, AuditRole, audit, w.block);
    if DecisionOf(d).Some? {
      var r: HumanReceipt :| Receipts(s.comments) == Pass([r]) && r.sha == t.head && audit.commentId < r.commentId
                             && r.decision == DecisionOf(d).value;
      ReceiptsAreNews(t, s.comments, r);
      forall x | x in t.entries && IsSomeReceipt(x) ensures Answers(t, x) {
      }
    }
  }

  lemma GroundsNameMarkers(
    s: Snapshot, world: World, w: WorkBlock, m: AcceptanceManifest, build: MarkerRecord, audit: MarkerRecord)
    requires FinalizeGrounds(s, world, w, m, build, audit)
    ensures s.pullRequest.Some? && AllMarkers(s.comments).Pass?
    ensures SolePass(AllMarkers(s.comments).value, BuildRole, build, w.block, s.pullRequest.value.headSha)
    ensures SolePass(AllMarkers(s.comments).value, AuditRole, audit, w.block, s.pullRequest.value.headSha)
  {
    hide AllMarkers, Carries, Admitted, DescribesBlock, DeclaresManifest, SolePass;
  }

  /**
   * Wherever finalize gives a final decision, both roles have markers, and all of them name the current
   * head and were written after it was pushed; so a push disables finalize until both roles have spoken
   * again. A human decision has a receipt, and every receipt has an id that follows those of the audit
   * comments, and was created after each audit comment of its own channel.
   */
  lemma FinalDecisionIsCurrent(t: Thread, s: Snapshot, world: World, d: Decision)
    requires Reachable(t) && Shows(s, t) && IsFinalDecision(d) && Decides(s, FinalizePhase, world, d)
    ensures RoleIsCurrent(t, BuildRole) && RoleIsCurrent(t, AuditRole)
    ensures DecisionOf(d).Some? ==> HasAnswer(t, DecisionOf(d).value)
  {
    hide Decides, FinalCase, HeadIsNews, Dated, Reachable, Shows, RoleIsCurrent, HasAnswer;
    ReachableHolds(t);
    FinalizeExactly(s, world, d);
    var w, m, b, a :| FinalCase(s, world, w, m, b, a, d);
    CaseIsCurrent(t, s, world, w, m, b, a, d);
  }

  lemma NothingWrittenYet(t: Thread, time: nat, role: Role)
    requires t.pushedAt > time && forall p | p in t.written :: t.written[p] <= time
    ensures !RoleIsCurrent(t, role)
  {
    hide IsMarker, Speaks;
  }

  /** Right after a push nothing can be finalized, whatever the thread says. */
  lemma PushDisablesFinalize(t: Thread, sha: string, s: Snapshot, world: World, d: Decision)
    requires Reachable(t) && Legal(t, Push(sha)) && Shows(s, After(t, Push(sha))) && IsFinalDecision(d)
    ensures !Decides(s, FinalizePhase, world, d)
  {
    hide Decides, FinalCase, HeadIsNews, Reachable, Shows, Legal, IsMarker, HasAnswer;
    ReachableHolds(t);
    var after := After(t, Push(sha));
    DatedHolds(t, Push(sha));
    NewsHolds(t, Push(sha));
    if Decides(s, FinalizePhase, world, d) {
      FinalizeExactly(s, world, d);
      var w, m, b, a :| FinalCase(s, world, w, m, b, a, d);
      NothingWrittenYet(after, t.clock, BuildRole);
      CaseIsCurrent(after, s, world, w, m, b, a, d);
    }
  }

  // ----- Approval and the text it approves -----

  /** No event from time `since` on edits the comment. */
  predicate Untouched(events: seq<Event>, since: nat, spot: Spot) {
    forall j | since <= j < |events| :: !(events[j].Edit? && events[j].spot == spot)
  }

  lemma RunSnoc(t: Thread, events: seq<Event>, e: Event)
    ensures Run(t, events + [e]) == After(Run(t, events), e)
    decreases |events|
  {
    hide After;
    if events == [] {
      assert [e][1..] == [] && Run(After(t, e), []) == After(t, e);
    } else {
      assert (events + [e])[1..] == events[1..] + [e];
      RunSnoc(After(t, events[0]), events[1..], e);
    }
  }

  lemma {:induction false} RunDates(t: Thread, events: seq<Event>)
    requires Initial(t)
    ensures Dated(Run(t, events)) && Run(t, events).clock == |events|
    decreases |events|
  {
    hide Dated;
    if events == [] {
      StartHolds(t);
    } else {
      var n := |events| - 1;
      assert events == events[..n] + [events[n]];
      RunSnoc(t, events[..n], events[n]);
      RunDates(t, events[..n]);
      DatedHolds(Run(t, events[..n]), events[n]);
    }
  }

  /** What one event does to the dates of a comment. */
  lemma DatesStep(t: Thread, e: Event, spot: Spot)
    requires Dated(t)
    ensures spot in t.created ==>
              var n := After(t, e);
              && spot in n.created && spot in n.written && n.created[spot] == t.created[spot]
              && n.written[spot] == if e.Edit? && e.spot == spot then t.clock + 1 else t.written[spot]
    ensures spot !in t.created && spot in After(t, e).created ==> After(t, e).created[spot] == t.clock + 1
  {
  }

  /** A comment that exists by a time was last written by then exactly if no later event edits it. */
  lemma {:induction false} WrittenByExactly(t: Thread, events: seq<Event>, time: nat, spot: Spot)
    requires Initial(t) && time <= |events|
    requires spot in Run(t, events[..time]).created
    ensures spot in Run(t, events).written && spot in Run(t, events).created
    ensures Run(t, events).created[spot] == Run(t, events[..time]).created[spot] <= time
    ensures Run(t, events).written[spot] <= time <==> Untouched(events, time, spot)
    decreases |events|
  {
    hide Run, After;
    if time == |events| {
      assert events[..time] == events;
      RunDates(t, events);
    } else {
      var n := |events| - 1;
      var front := events[..n];
      assert events == front + [events[n]] && front[..time] == events[..time];
      RunSnoc(t, front, events[n]);
      RunDates(t, front);
      WrittenByExactly(t, front, time, spot);
      UntouchedSnoc(front, events[n], time, spot);
      DatesStep(Run(t, front), events[n], spot);
    }
  }

  lemma UntouchedSnoc(events: seq<Event>, e: Event, since: nat, spot: Spot)
    requires since <= |events|
    ensures Untouched(events + [e], since, spot) <==> Untouched(events, since, spot) && !(e.Edit? && e.spot == spot)
  {
    var all := events + [e];
    assert all[|events|] == e && forall j | 0 <= j < |events| :: all[j] == events[j];
  }

  /** When a comment of the thread was created, in terms of the run. */
  lemma {:induction false} CreatedAtItsTime(t: Thread, events: seq<Event>, time: nat, spot: Spot)
    requires Initial(t) && time <= |events| && spot in Run(t, events).created
    ensures spot in Run(t, events[..time]).created <==> Run(t, events).created[spot] <= time
    decreases |events|
  {
    hide Run, After;
    RunDates(t, events);
    if time == |events| {
      assert events[..time] == events;
    } else {
      var n := |events| - 1;
      var front := events[..n];
      assert events == front + [events[n]] && front[..time] == events[..time];
      RunSnoc(t, front, events[n]);
      RunDates(t, front);
      DatesStep(Run(t, front), events[n], spot);
      if spot in Run(t, front).created {
        CreatedAtItsTime(t, front, time, spot);
      } else {
        CreatedSoFar(t, front, time, spot);
      }
    }
  }

  lemma {:induction false} CreatedSoFar(t: Thread, events: seq<Event>, time: nat, spot: Spot)
    requires Initial(t) && time <= |events| && spot !in Run(t, events).created
    ensures spot !in Run(t, events[..time]).created
    decreases |events|
  {
    if time == |events| {
      assert events[..time] == events;
    } else {
      hide Run;
      var n := |events| - 1;
      var front := events[..n];
      assert events == front + [events[n]] && front[..time] == events[..time];
      RunSnoc(t, front, events[n]);
      CreatedSoFar(t, front, time, spot);
    }
  }

  /** The audit text is no newer than the receipt that answers it. */
  predicate ApprovedText(t: Thread, audit: Spot, receipt: Spot) {
    audit in t.written && receipt in t.created && t.written[audit] <= t.created[receipt]
  }

  /**
   * When the text that is approved existed before the approval, exactly: for every audit comment and the
   * receipt that a human decision rests on, if and only if it was created before the receipt and no event since edits it.
   * Within one channel creation order is certain, and the edits alone decide.
   */
  lemma ApprovalPostdatesAudit(
    start: Thread, events: seq<Event>, s: Snapshot, world: World, d: Decision, audit: Entry, receipt: Entry)
    requires Initial(start) && LegalRun(start, events) && Shows(s, Run(start, events))
    requires DecisionOf(d).Some? && Decides(s, FinalizePhase, world, d)
    requires audit in Run(start, events).entries && IsMarker(audit, AuditRole)
    requires receipt in Run(start, events).entries && IsSomeReceipt(receipt)
    ensures var t := Run(start, events);
            && IsReceipt(receipt, DecisionOf(d).value) && receipt.spot in t.created
            && (ApprovedText(t, audit.spot, receipt.spot) <==>
                  CreatedBefore(t, audit.spot, receipt.spot) && Untouched(events, t.created[receipt.spot], audit.spot))
            && (audit.spot.channel == receipt.spot.channel ==>
                  (ApprovedText(t, audit.spot, receipt.spot) <==> Untouched(events, t.created[receipt.spot], audit.spot)))
  {
    hide Decides, HeadIsNews, Shows, IsMarker, IsReceipt, IsSomeReceipt, LegalRun, RoleIsCurrent, Untouched;
    var t := Run(start, events);
    RunDates(start, events);
    assert Reachable(t);
    FinalDecisionIsCurrent(t, s, world, d);
    DatesDecide(start, events, audit, receipt);
  }

  lemma DatesDecide(start: Thread, events: seq<Event>, audit: Entry, receipt: Entry)
    requires Initial(start)
    requires audit in Run(start, events).entries && receipt in Run(start, events).entries
    requires audit.spot.id < receipt.spot.id
    ensures var t := Run(start, events);
            && audit.spot in t.created && receipt.spot in t.created
            && (ApprovedText(t, audit.spot, receipt.spot) <==>
                  CreatedBefore(t, audit.spot, receipt.spot) && Untouched(events, t.created[receipt.spot], audit.spot))
  {
    hide Untouched, Run;
    var t := Run(start, events);
    RunDates(start, events);
    var time := t.created[receipt.spot];
    CreatedAtItsTime(start, events, time, audit.spot);
    if audit.spot in Run(start, events[..time]).created {
      WrittenByExactly(start, events, time, audit.spot);
      CreatedOnce(start, events, audit.spot, receipt.spot);
    }
  }

  /** Two comments are never created at the same time. */
  lemma {:induction false} CreatedOnce(t: Thread, events: seq<Event>, p: Spot, q: Spot)
    requires Initial(t) && p in Run(t, events).created && q in Run(t, events).created && p != q
    ensures Run(t, events).created[p] != Run(t, events).created[q]
    decreases |events|
  {
    if events != [] {
      hide Run;
      var n := |events| - 1;
      var front := events[..n];
      assert events == front + [events[n]];
      RunSnoc(t, front, events[n]);
      RunDates(t, front);
      if p in Run(t, front).created && q in Run(t, front).created {
        CreatedOnce(t, front, p, q);
        PostsAreNew(Run(t, front), events[n]);
      } else {
        PostsAreNew(Run(t, front), events[n]);
      }
    }
  }

  lemma PostsAreNew(t: Thread, e: Event)
    requires Dated(t)
    ensures forall p | p in t.created :: p in After(t, e).created && After(t, e).created[p] == t.created[p] <= t.clock
    ensures forall p | p in After(t, e).created && p !in t.created :: After(t, e).created[p] == t.clock + 1
    ensures forall p, q | p in After(t, e).created && q in After(t, e).created :: p !in t.created && q !in t.created ==> p == q
  {
  }

  /**
   * Nothing in the resolution looks at the audit text: the approval is matched to the audit comment by id
   * alone, so rewriting an audit comment in place keeps an approval that was given to its earlier text.
   */
  lemma ApprovalIgnoresAuditText(
    comments: seq<Comment>, i: nat, body: string, block: string, head: string, digest: string,
    before: MarkerRecord, after: MarkerRecord)
    requires i < |comments|
    requires MarkerOf(comments[i]) == Pass(Some(before)) && MarkerOf(Comment(comments[i].id, body)) == Pass(Some(after))
    ensures ResolveReceipt(comments, block, head, digest, Some(before))
         == ResolveReceipt(comments[i := Comment(comments[i].id, body)], block, head, digest, Some(after))
  {
    hide MarkerOf, HumanReceiptOf, Receipts;
    MarkerIsNoReceipt(comments[i], before);
    MarkerIsNoReceipt(Comment(comments[i].id, body), after);
    ParsedId(comments[i], before);
    ParsedId(Comment(comments[i].id, body), after);
    SameReceipts(comments, comments[i := Comment(comments[i].id, body)]);
  }

  lemma {:induction false} SameReceipts(a: seq<Comment>, b: seq<Comment>)
    requires |a| == |b| && forall k | 0 <= k < |a| :: HumanReceiptOf(a[k]) == HumanReceiptOf(b[k])
    ensures Receipts(a) == Receipts(b)
  {
    hide HumanReceiptOf;
    if a != [] {
      SameReceipts(a[..|a| - 1], b[..|b| - 1]);
    }
  }

  lemma {:induction false} ContainsAt(s: string, part: string) returns (p: nat)
    requires Contains(s, part)
    ensures p <= |s| && part <= s[p..]
  {
    if part <= s {
      p := 0;
    } else {
      var q := ContainsAt(s[1..], part);
      p := q + 1;
    }
  }

  lemma {:induction false} TokensOfSuffix(s: string, p: nat)
    requires p <= |s|
    ensures TokenCount(s[p..]) <= TokenCount(s)
  {
    if p > 0 {
      TokensOfSuffix(s[1..], p - 1);
      assert s[1..][p - 1..] == s[p..];
    }
  }

  lemma TwoTokens(s: string, p: nat, q: nat)
    requires p < q < |s| && StartsWithToken(s[p..]) && StartsWithToken(s[q..])
    ensures TokenCount(s) >= 2
  {
    hide StartsWithToken;
    TokensOfSuffix(s, p);
    assert s[p..][1..] == s[p + 1..];
    TokensOfSuffix(s[p + 1..], q - p - 1);
    assert s[p + 1..][q - p - 1..] == s[q..];
  }

  lemma HeaderToken(block: Block)
    ensures |HEADER_OPEN| <= |Render(block)| && Token(block.kind) <= Render(block)[|HEADER_OPEN|..]
  {
    hide JoinOn, Token;
    var s := Render(block);
    var k := |HEADER_OPEN|;
    var rest := "\n" + (JoinOn(block.lines, '\n') + (CLOSER + block.payload));
    assert s == HEADER_OPEN + (Token(block.kind) + rest);
    assert s[k..] == Token(block.kind) + rest;
  }

  lemma TokenStarts(s: string, kind: MarkerKind)
    requires Token(kind) <= s
    ensures StartsWithToken(s) && KindAt(s[|TOKEN_STEM|..]) == Some(kind) && |s| > 0
  {
    hide KindAt;
    TokenIsPrefix(s, kind);
  }

  /** A text with one token, that of its header, contains no other token. */
  lemma OtherTokenAbsent(block: Block)
    requires TokenCount(Render(block)) == 1 && block.kind != HumanV1
    ensures !Contains(Render(block), Token(HumanV1))
  {
    hide TokenCount, Contains, KindAt, StartsWithToken, Token, Render;
    var s := Render(block);
    var k := |HEADER_OPEN|;
    HeaderToken(block);
    TokenStarts(s[k..], block.kind);
    if Contains(s, Token(HumanV1)) {
      var p := ContainsAt(s, Token(HumanV1));
      TokenStarts(s[p..], HumanV1);
      if p < k {
        TwoTokens(s, p, k);
      } else if p > k {
        TwoTokens(s, k, p);
      }
    }
  }

  /** A comment that is a marker holds one token, and it is not the receipt's. */
  lemma MarkerIsNoReceipt(c: Comment, m: MarkerRecord)
    requires MarkerOf(c) == Pass(Some(m))
    ensures HumanReceiptOf(c) == Pass(None)
  {
    hide RecordOf, NormalizeLines, TokenCount, MatchBlock, FieldMap, LegalFields, ReceiptOf, Render, ToLf, Contains, Header,
         TokenSum, Token;
    var body := ToLf(c.body);
    var block := MatchBlock(body).value;
    MatchIsRender(body);
    BlockIsTokenFree(body);
    OtherTokenAbsent(block);
  }
}
