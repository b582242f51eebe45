/** One application of a mutation plan leaves nothing to reconcile. */
module Convergence {
  import opened Wrappers
  import opened Sequences
  import opened GuardText
  import opened MarkerText
  import opened Markers
  import opened Reconciliation

  ghost predicate DistinctComments(comments: seq<Comment>) {
    forall i, j | 0 <= i < j < |comments| :: comments[i].id != comments[j].id
  }

  ghost predicate DistinctIds(ms: seq<MarkerRecord>) {
    forall i, j | 0 <= i < j < |ms| :: ms[i].commentId != ms[j].commentId
  }

  // ----- Where records come from -----

  lemma {:induction false} RecordSource(comments: seq<Comment>, m: MarkerRecord)
    requires AllMarkers(comments).Pass? && m in AllMarkers(comments).value
    ensures exists i :: 0 <= i < |comments| && MarkerOf(comments[i]) == Pass(Some(m)) && comments[i].id == m.commentId
  {
    hide MarkerOf;
    var n := |comments| - 1;
    if MarkerOf(comments[n]) == Pass(Some(m)) {
    } else {
      RecordSource(comments[..n], m);
      var i :| 0 <= i < n && MarkerOf(comments[..n][i]) == Pass(Some(m)) && comments[..n][i].id == m.commentId;
      assert comments[..n][i] == comments[i];
    }
  }

  lemma {:induction false} RecordsAreDistinct(comments: seq<Comment>)
    requires AllMarkers(comments).Pass? && DistinctComments(comments)
    ensures DistinctIds(AllMarkers(comments).value)
  {
    hide MarkerOf;
    if comments != [] {
      var n := |comments| - 1;
      RecordsAreDistinct(comments[..n]);
      var front := AllMarkers(comments[..n]).value;
      forall m | m in front ensures m.commentId != comments[n].id {
        RecordSource(comments[..n], m);
      }
    }
  }

  lemma {:induction false} FilterKeepsDistinct(keep: MarkerRecord -> bool, ms: seq<MarkerRecord>)
    requires DistinctIds(ms)
    ensures DistinctIds(Filter(keep, ms))
  {
    if ms != [] {
      FilterKeepsDistinct(keep, ms[1..]);
      forall m | m in Filter(keep, ms[1..]) ensures m.commentId != ms[0].commentId {
        assert m in ms[1..];
      }
    }
  }

  /** A superseded record has no active role, so no resolution selects it. */
  lemma SupersededIsSilent(comments: seq<Comment>, role: Role)
    requires AllMarkers(comments).Pass?
    ensures forall m | m in Active(AllMarkers(comments).value, role) :: !m.kind.SupersededV1?
  {
    hide AllMarkers, MarkerOf;
    forall m | m in Active(AllMarkers(comments).value, role) ensures !m.kind.SupersededV1? {
      RecordSource(comments, m);
      var i :| 0 <= i < |comments| && MarkerOf(comments[i]) == Pass(Some(m)) && comments[i].id == m.commentId;
      SupersededHasNoRole(comments[i], m);
    }
  }

  lemma SupersededHasNoRole(comment: Comment, m: MarkerRecord)
    requires MarkerOf(comment) == Pass(Some(m))
    ensures m.kind.SupersededV1? <==> m.role.None?
    ensures m.kind.SupersededV1? ==> m.archivedRole.Some?
  {
    hide NormalizeLines, TokenCount, MatchBlock, LegalFields, FieldMap, ToLf;
  }

  // ----- What the plan names -----

  lemma SupersedingNames(role: Role, ids: seq<int>, mutation: Mutation)
    ensures mutation in Superseding(role, ids) <==> mutation.Supersede? && mutation.role == role && mutation.commentId in ids
  {
    var plan := Superseding(role, ids);
    if mutation.Supersede? && mutation.role == role && mutation.commentId in ids {
      var i :| 0 <= i < |ids| && ids[i] == mutation.commentId;
      assert plan[i] == mutation;
    }
  }

  lemma PlanNames(ctx: Context, role: Role, id: int)
    ensures Supersede(role, id) in ctx.Plan() <==> id in ctx.For(role).duplicates
    ensures ArchiveAudit(id) in ctx.Plan()
       <==> ctx.audit.stale != [] && id == Canonical(ctx.audit.stale).commentId
    ensures RetargetBuild(id) in ctx.Plan()
       <==> ctx.build.stale != [] && id == Canonical(ctx.build.stale).commentId
  {
    hide Superseding, Canonical;
    forall mutation: Mutation
      ensures mutation in ctx.Plan() <==>
        || mutation in Superseding(BuildRole, ctx.build.duplicates)
        || mutation in StalePlan(BuildRole, ctx.build.stale)
        || mutation in Superseding(AuditRole, ctx.audit.duplicates)
        || mutation in StalePlan(AuditRole, ctx.audit.stale)
    {
    }
    SupersedingNames(BuildRole, ctx.build.duplicates, Supersede(role, id));
    SupersedingNames(AuditRole, ctx.audit.duplicates, Supersede(role, id));
    SupersedingNames(BuildRole, ctx.build.duplicates, ArchiveAudit(id));
    SupersedingNames(AuditRole, ctx.audit.duplicates, ArchiveAudit(id));
    SupersedingNames(BuildRole, ctx.build.duplicates, RetargetBuild(id));
    SupersedingNames(AuditRole, ctx.audit.duplicates, RetargetBuild(id));
  }

  /** The setting of the theorem: both roles resolved in the build phase. */
  ghost predicate Resolved(ctx: Context, comments: seq<Comment>, block: string) {
    && IsFullSha(ctx.head) && TokenCount(ToLf(ctx.note)) == 0
    && DistinctComments(comments)
    && AllMarkers(comments).Pass?
    && ResolveMarkers(AllMarkers(comments).value, BuildRole, block, ctx.head, BuildPhase) == Pass(ctx.build)
    && ResolveMarkers(AllMarkers(comments).value, AuditRole, block, ctx.head, BuildPhase) == Pass(ctx.audit)
  }

  /** A record the plan names is one of the records its role resolved. */
  lemma StaleIsBehind(ctx: Context, comments: seq<Comment>, block: string, role: Role)
    requires Resolved(ctx, comments, block)
    ensures forall m | m in ctx.For(role).stale ::
              m.sha != ctx.head && m.role == Some(role) && m in AllMarkers(comments).value && m.block == block
  {
    hide MarkerOf, AllMarkers, Duplicates, Canonical, Equivalent;
    var active := Active(AllMarkers(comments).value, role);
    assert forall m | m in active :: m in AllMarkers(comments).value && m.role == Some(role);
  }

  lemma SameIdSameRecord(comments: seq<Comment>, a: MarkerRecord, b: MarkerRecord)
    requires AllMarkers(comments).Pass? && DistinctComments(comments)
    requires a in AllMarkers(comments).value && b in AllMarkers(comments).value && a.commentId == b.commentId
    ensures a == b
  {
    RecordsAreDistinct(comments);
    var ms := AllMarkers(comments).value;
    var i :| 0 <= i < |ms| && ms[i] == a;
    var j :| 0 <= j < |ms| && ms[j] == b;
    assert i == j;
  }

  lemma {:induction false} RecordIsListed(comments: seq<Comment>, i: nat, m: MarkerRecord)
    requires AllMarkers(comments).Pass? && i < |comments| && MarkerOf(comments[i]) == Pass(Some(m))
    ensures m in AllMarkers(comments).value
  {
    hide MarkerOf;
    var n := |comments| - 1;
    if i < n {
      RecordIsListed(comments[..n], i, m);
    }
  }

  /** What an edit does to the record of one comment. */
  datatype Fate = Untouched | Silenced | Retargeted(after: MarkerRecord)

  lemma EditFate(ctx: Context, comments: seq<Comment>, block: string, i: nat, m: MarkerRecord, role: Role)
    returns (fate: Fate)
    requires Resolved(ctx, comments, block) && i < |comments|
    requires MarkerOf(comments[i]) == Pass(Some(m)) && m.role == Some(role)
    ensures fate == Untouched ==> ctx.Edit(comments[i]) == comments[i]
    ensures fate == Untouched <==>
              m.commentId !in ctx.For(role).duplicates
              && (ctx.For(role).stale == [] || m.commentId != Canonical(ctx.For(role).stale).commentId)
    ensures fate == Silenced ==>
              MarkerOf(ctx.Edit(comments[i])).Pass? && MarkerOf(ctx.Edit(comments[i])).value.Some?
              && MarkerOf(ctx.Edit(comments[i])).value.value.role == None
    ensures fate.Retargeted? ==>
              MarkerOf(ctx.Edit(comments[i])) == Pass(Some(fate.after))
              && role.BuildRole? && m.commentId !in ctx.build.duplicates
              && fate.after.role == Some(BuildRole) && fate.after.sha == ctx.head && fate.after.block == m.block
              && fate.after.status == Pending && fate.after.commentId == m.commentId
  {
    hide MarkerOf, RawPayload, Printed, AllMarkers, ResolveMarkers, RolePlan, Canonical;
    var c := comments[i];
    assert c.id == m.commentId by {
      ParsedIsRendered(c, m);
      ParsedId(c, m);
    }
    PlanNames(ctx, role, c.id);
    if Supersede(role, c.id) in ctx.Plan() {
      var after := SupersededParses(c, m, role, ctx.Survivor(role));
      fate := Silenced;
    } else if role.AuditRole? && ArchiveAudit(c.id) in ctx.Plan() {
      StaleIsBehind(ctx, comments, block, AuditRole);
      RecordIsListed(comments, i, m);
      var canonical := Canonical(ctx.audit.stale);
      assert canonical in ctx.audit.stale;
      SameIdSameRecord(comments, m, canonical);
      var after := ArchivedParses(c, m, ctx.head);
      fate := Silenced;
    } else if role.BuildRole? && RetargetBuild(c.id) in ctx.Plan() {
      var after := RetargetedParses(c, m, ctx.head, ctx.note);
      fate := Retargeted(after);
    } else {
      fate := Untouched;
    }
  }

  lemma ParsedId(comment: Comment, m: MarkerRecord)
    requires MarkerOf(comment) == Pass(Some(m))
    ensures comment.id == m.commentId
  {
  }

  // ----- The active markers afterwards -----

  /** `keep` says which active markers of the role survive, `g` what they become. */
  ghost predicate BecomesOne(
    ctx: Context, c: Comment, m: MarkerRecord, role: Role, keep: MarkerRecord -> bool, g: MarkerRecord -> MarkerRecord)
  {
    var after := MarkerOf(ctx.Edit(c));
    && after.Pass?
    && (m.role == Some(role) && keep(m) ==> after == Pass(Some(g(m))) && g(m).role == Some(role))
    && (m.role != Some(role) || !keep(m) ==> after.value.Some? && after.value.value.role != Some(role))
  }

  ghost predicate Becomes(
    ctx: Context, comments: seq<Comment>, role: Role, keep: MarkerRecord -> bool, g: MarkerRecord -> MarkerRecord)
  {
    forall i, m | 0 <= i < |comments| && MarkerOf(comments[i]) == Pass(Some(m)) ::
      BecomesOne(ctx, comments[i], m, role, keep, g)
  }

  lemma ActiveStep(
    before: seq<MarkerRecord>, m: MarkerRecord, after: seq<MarkerRecord>, m': MarkerRecord,
    role: Role, keep: MarkerRecord -> bool, g: MarkerRecord -> MarkerRecord)
    requires Active(after, role) == Map(g, Filter(keep, Active(before, role)))
    requires m.role == Some(role) && keep(m) ==> m' == g(m) && g(m).role == Some(role)
    requires m.role != Some(role) || !keep(m) ==> m'.role != Some(role)
    ensures Active(after + [m'], role) == Map(g, Filter(keep, Active(before + [m], role)))
  {
    ActiveSnoc(before, m, role);
    ActiveSnoc(after, m', role);
    if m.role == Some(role) {
      FilterAppend(keep, Active(before, role), [m]);
      if keep(m) {
        FilterAll(keep, [m]);
        var kept := Filter(keep, Active(before, role));
        assert Map(g, kept + [m]) == Map(g, kept) + [g(m)];
      } else {
        FilterNone(keep, [m]);
      }
    }
  }

  lemma {:induction false} ActiveAfter(
    ctx: Context, comments: seq<Comment>, role: Role, keep: MarkerRecord -> bool, g: MarkerRecord -> MarkerRecord)
    requires AllMarkers(comments).Pass? && Becomes(ctx, comments, role, keep, g)
    ensures AllMarkers(ctx.Apply(comments)).Pass?
    ensures Active(AllMarkers(ctx.Apply(comments)).value, role)
         == Map(g, Filter(keep, Active(AllMarkers(comments).value, role)))
  {
    hide MarkerOf, Active, Context.Edit, BecomesOne;
    if comments == [] {
      assert ctx.Apply(comments) == [];
      NoneActive(role);
    } else {
      var n := |comments| - 1;
      var front, last := comments[..n], comments[n];
      assert forall i | 0 <= i < n :: front[i] == comments[i];
      ActiveAfter(ctx, front, role, keep, g);
      var edited := ctx.Apply(comments);
      assert edited[..n] == ctx.Apply(front) && edited[n] == ctx.Edit(last);
      LastBecomes(ctx, AllMarkers(front).value, AllMarkers(ctx.Apply(front)).value, last, role, keep, g);
    }
  }

  lemma LastBecomes(
    ctx: Context, before: seq<MarkerRecord>, after: seq<MarkerRecord>, last: Comment,
    role: Role, keep: MarkerRecord -> bool, g: MarkerRecord -> MarkerRecord)
    requires Active(after, role) == Map(g, Filter(keep, Active(before, role)))
    requires MarkerOf(last).Pass?
    requires MarkerOf(last).value.Some? ==> BecomesOne(ctx, last, MarkerOf(last).value.value, role, keep, g)
    ensures MarkerOf(ctx.Edit(last)).Pass?
    ensures var m, m' := MarkerOf(last).value, MarkerOf(ctx.Edit(last)).value;
            Active(if m'.Some? then after + [m'.value] else after, role)
            == Map(g, Filter(keep, Active(if m.Some? then before + [m.value] else before, role)))
  {
    hide MarkerOf, Active, Context.Edit;
    if MarkerOf(last).value.Some? {
      ActiveStep(before, MarkerOf(last).value.value, after, MarkerOf(ctx.Edit(last)).value.value, role, keep, g);
    } else {
      NoMarkerNoEdit(ctx, last);
    }
  }

  lemma NoneActive(role: Role)
    ensures Active([], role) == []
  {
  }

  lemma ActiveSnoc(ms: seq<MarkerRecord>, m: MarkerRecord, role: Role)
    ensures Active(ms + [m], role) == if m.role == Some(role) then Active(ms, role) + [m] else Active(ms, role)
  {
    var isRole := (m: MarkerRecord) => m.role == Some(role);
    FilterAppend((m: MarkerRecord) => m.role == Some(role), ms, [m]);
    if m.role == Some(role) {
      FilterAll((m: MarkerRecord) => m.role == Some(role), [m]);
    } else {
      FilterNone((m: MarkerRecord) => m.role == Some(role), [m]);
    }
  }

  lemma NoMarkerNoEdit(ctx: Context, comment: Comment)
    requires MarkerOf(comment) == Pass(None)
    ensures ctx.Edit(comment) == comment
  {
  }

  // ----- The theorem, role by role -----

  /** The resolution a role settles on: nothing pending and the same current marker. */
  ghost predicate Settled(before: Resolution, after: Resolution) {
    && after.duplicates == [] && after.stale == []
    && (before.marker.Some? ==> after.marker == before.marker)
    && (before.marker.None? && before.stale == [] ==> after.marker.None?)
  }

  lemma OneMarkerResolves(m: MarkerRecord, role: Role, block: string, head: string, ms: seq<MarkerRecord>)
    requires Active(ms, role) == [m] && m.block == block && m.sha == head
    ensures ResolveMarkers(ms, role, block, head, BuildPhase) == Pass(Resolution(Some(m), [], []))
  {
    hide Active;
    FilterAll((x: MarkerRecord) => x.sha == head, [m]);
    FilterNone((x: MarkerRecord) => x.sha != head, [m]);
    FilterNone((x: MarkerRecord) => x.commentId != m.commentId, [m]);
    assert Canonical([m]) == m;
  }

  lemma NoMarkerResolves(role: Role, block: string, head: string, ms: seq<MarkerRecord>)
    requires Active(ms, role) == []
    ensures ResolveMarkers(ms, role, block, head, BuildPhase) == Pass(NO_MARKER)
  {
  }

  /** Whatever the plan leaves alone or silences, the other role's records never join this one. */
  lemma OtherRoleStays(ctx: Context, comments: seq<Comment>, block: string, i: nat, m: MarkerRecord, role: Role)
    requires Resolved(ctx, comments, block) && i < |comments|
    requires MarkerOf(comments[i]) == Pass(Some(m)) && m.role != Some(role)
    ensures var after := MarkerOf(ctx.Edit(comments[i]));
            after.Pass? && after.value.Some? && after.value.value.role != Some(role)
  {
    if m.role.Some? {
      var fate := EditFate(ctx, comments, block, i, m, m.role.value);
    }
  }

  /** Current markers: the canonical one stays, its duplicates fall silent. */
  lemma CurrentSettles(ctx: Context, comments: seq<Comment>, block: string, role: Role)
    returns (after: Resolution)
    requires Resolved(ctx, comments, block) && ctx.For(role).stale == []
    ensures AllMarkers(ctx.Apply(comments)).Pass?
    ensures ResolveMarkers(AllMarkers(ctx.Apply(comments)).value, role, block, ctx.head, BuildPhase) == Pass(after)
    ensures Settled(ctx.For(role), after)
  {
    hide MarkerOf, AllMarkers, Context.Edit, Context.Apply;
    var before := ctx.For(role);
    var active := Active(AllMarkers(comments).value, role);
    var keep := (m: MarkerRecord) => m.commentId !in before.duplicates;
    var g := (m: MarkerRecord) => m;
    forall i, m | 0 <= i < |comments| && MarkerOf(comments[i]) == Pass(Some(m))
      ensures BecomesOne(ctx, comments[i], m, role, keep, g)
    {
      CurrentFate(ctx, comments, block, i, m, role, keep, g);
    }
    ActiveAfter(ctx, comments, role, keep, g);
    var kept := Filter(keep, active);
    assert Map(g, kept) == kept;
    CurrentResolution(active, before, AllMarkers(comments).value, role, block, ctx.head);
    if before.marker.Some? {
      RecordsAreDistinct(comments);
      KeepsCanonical(active, AllMarkers(comments).value, role, before, keep);
      OneMarkerResolves(before.marker.value, role, block, ctx.head, AllMarkers(ctx.Apply(comments)).value);
      after := Resolution(before.marker, [], []);
    } else {
      NoMarkerResolves(role, block, ctx.head, AllMarkers(ctx.Apply(comments)).value);
      after := NO_MARKER;
    }
  }

  lemma CurrentFate(
    ctx: Context, comments: seq<Comment>, block: string, i: nat, m: MarkerRecord, role: Role,
    keep: MarkerRecord -> bool, g: MarkerRecord -> MarkerRecord)
    requires Resolved(ctx, comments, block) && ctx.For(role).stale == [] && i < |comments|
    requires MarkerOf(comments[i]) == Pass(Some(m))
    requires keep(m) <==> m.commentId !in ctx.For(role).duplicates
    requires g(m) == m
    ensures BecomesOne(ctx, comments[i], m, role, keep, g)
  {
    hide MarkerOf, AllMarkers, Context.Edit, Resolved;
    if m.role == Some(role) {
      var fate := EditFate(ctx, comments, block, i, m, role);
    } else {
      OtherRoleStays(ctx, comments, block, i, m, role);
    }
  }

  lemma CurrentResolution(
    active: seq<MarkerRecord>, r: Resolution, ms: seq<MarkerRecord>, role: Role, block: string, head: string)
    requires active == Active(ms, role) && r.stale == []
    requires ResolveMarkers(ms, role, block, head, BuildPhase) == Pass(r)
    ensures r.marker.None? ==> active == []
    ensures r.marker.Some? ==>
              && r.marker.value in active && r.marker.value.block == block && r.marker.value.sha == head
              && r.duplicates == Duplicates(active, r.marker.value.commentId)
  {
    hide Active;
    assert Behind(active, head) == [];
    forall m | m in active ensures m.sha == head {
      assert m in Behind(active, head) <==> m.sha != head;
    }
    FilterAll((m: MarkerRecord) => m.sha == head, active);
    assert AtHead(active, head) == active;
  }

  lemma KeepsCanonical(
    active: seq<MarkerRecord>, ms: seq<MarkerRecord>, role: Role, r: Resolution, keep: MarkerRecord -> bool)
    requires active == Active(ms, role) && DistinctIds(ms)
    requires r.marker.Some? && r.marker.value in active
    requires r.duplicates == Duplicates(active, r.marker.value.commentId)
    requires forall m :: keep(m) <==> m.commentId !in r.duplicates
    ensures Filter(keep, active) == [r.marker.value]
  {
    hide Duplicates;
    var c := r.marker.value;
    FilterKeepsDistinct((m: MarkerRecord) => m.role == Some(role), ms);
    assert DistinctIds(active);
    var i :| 0 <= i < |active| && active[i] == c;
    DuplicatesAre(active, c.commentId, c.commentId);
    forall j | 0 <= j < |active| && j != i ensures !keep(active[j]) {
      assert active[j] in active && active[j].commentId != c.commentId;
      DuplicatesAre(active, c.commentId, active[j].commentId);
    }
    FilterSingle(keep, active, i);
  }

  /** Stale audit markers: every one of them falls silent, archived or superseded. */
  lemma StaleAuditSettles(ctx: Context, comments: seq<Comment>, block: string) returns (after: Resolution)
    requires Resolved(ctx, comments, block) && ctx.audit.stale != []
    ensures AllMarkers(ctx.Apply(comments)).Pass?
    ensures ResolveMarkers(AllMarkers(ctx.Apply(comments)).value, AuditRole, block, ctx.head, BuildPhase) == Pass(after)
    ensures after == NO_MARKER
  {
    hide MarkerOf, AllMarkers, Context.Edit, Context.Apply;
    var active := Active(AllMarkers(comments).value, AuditRole);
    var keep := (m: MarkerRecord) => false;
    var g := (m: MarkerRecord) => m;
    StaleAuditResolution(active, ctx.audit, AllMarkers(comments).value, block, ctx.head);
    forall i, m | 0 <= i < |comments| && MarkerOf(comments[i]) == Pass(Some(m))
      ensures BecomesOne(ctx, comments[i], m, AuditRole, keep, g)
    {
      if m.role == Some(AuditRole) {
        RecordIsListed(comments, i, m);
        assert m in active;
        var fate := EditFate(ctx, comments, block, i, m, AuditRole);
        DuplicatesAre(ctx.audit.stale, Canonical(ctx.audit.stale).commentId, m.commentId);
        assert fate == Silenced;
      } else {
        OtherRoleStays(ctx, comments, block, i, m, AuditRole);
      }
    }
    ActiveAfter(ctx, comments, AuditRole, keep, g);
    FilterNone(keep, active);
    NoMarkerResolves(AuditRole, block, ctx.head, AllMarkers(ctx.Apply(comments)).value);
    after := NO_MARKER;
  }

  lemma StaleAuditResolution(
    active: seq<MarkerRecord>, r: Resolution, ms: seq<MarkerRecord>, block: string, head: string)
    requires active == Active(ms, AuditRole) && r.stale != []
    requires ResolveMarkers(ms, AuditRole, block, head, BuildPhase) == Pass(r)
    ensures r.marker == None && r.duplicates == Duplicates(r.stale, Canonical(r.stale).commentId)
    ensures forall m | m in active :: m in r.stale
  {
    hide Active, Duplicates, Canonical;
    assert AtHead(active, head) == [];
    forall m | m in active ensures m in Behind(active, head) {
      assert m in AtHead(active, head) <==> m.sha == head;
    }
  }

  /** A stale PENDING build marker: the same comment becomes the current PENDING marker. */
  lemma StaleBuildSettles(ctx: Context, comments: seq<Comment>, block: string) returns (after: Resolution)
    requires Resolved(ctx, comments, block) && ctx.build.stale != []
    ensures AllMarkers(ctx.Apply(comments)).Pass?
    ensures ResolveMarkers(AllMarkers(ctx.Apply(comments)).value, BuildRole, block, ctx.head, BuildPhase) == Pass(after)
    ensures after.duplicates == [] && after.stale == [] && after.marker.Some?
    ensures after.marker.value.status == Pending && after.marker.value.sha == ctx.head
    ensures |ctx.build.stale| == 1 && after.marker.value.commentId == ctx.build.stale[0].commentId
  {
    hide MarkerOf, AllMarkers, Context.Edit, Context.Apply, ResolveMarkers, Active;
    var ms := AllMarkers(comments).value;
    StaleBuildResolution(Active(ms, BuildRole), ctx.build, ms, block, ctx.head);
    var m0 := ctx.build.stale[0];
    ActiveIsListed(ms, m0);
    RecordSource(comments, m0);
    var i0 :| 0 <= i0 < |comments| && MarkerOf(comments[i0]) == Pass(Some(m0)) && comments[i0].id == m0.commentId;
    var result := RetargetFate(ctx, comments, block, i0, m0);
    var keep := (m: MarkerRecord) => true;
    var g := (m: MarkerRecord) => result;
    forall i, m | 0 <= i < |comments| && MarkerOf(comments[i]) == Pass(Some(m))
      ensures BecomesOne(ctx, comments[i], m, BuildRole, keep, g)
    {
      if m.role == Some(BuildRole) {
        OnlyStaleBuild(ctx, comments, block, i, m, i0, m0);
      } else {
        OtherRoleStays(ctx, comments, block, i, m, BuildRole);
      }
    }
    ActiveAfter(ctx, comments, BuildRole, keep, g);
    FilterAll(keep, [m0]);
    assert Map(g, [m0]) == [result];
    OneMarkerResolves(result, BuildRole, block, ctx.head, AllMarkers(ctx.Apply(comments)).value);
    after := Resolution(Some(result), [], []);
  }

  lemma ActiveIsListed(ms: seq<MarkerRecord>, m: MarkerRecord)
    ensures m in Active(ms, BuildRole) <==> m in ms && m.role == Some(BuildRole)
  {
  }

  lemma OnlyStaleBuild(
    ctx: Context, comments: seq<Comment>, block: string, i: nat, m: MarkerRecord, i0: nat, m0: MarkerRecord)
    requires Resolved(ctx, comments, block) && i < |comments| && i0 < |comments|
    requires MarkerOf(comments[i]) == Pass(Some(m)) && m.role == Some(BuildRole)
    requires MarkerOf(comments[i0]) == Pass(Some(m0))
    requires Active(AllMarkers(comments).value, BuildRole) == [m0]
    ensures i == i0 && m == m0
  {
    hide MarkerOf, AllMarkers, ResolveMarkers, Active;
    RecordIsListed(comments, i, m);
    ActiveIsListed(AllMarkers(comments).value, m);
    ParsedId(comments[i], m);
    ParsedId(comments[i0], m0);
    assert comments[i].id == comments[i0].id;
  }

  lemma RetargetFate(ctx: Context, comments: seq<Comment>, block: string, i: nat, m: MarkerRecord)
    returns (after: MarkerRecord)
    requires Resolved(ctx, comments, block) && i < |comments|
    requires MarkerOf(comments[i]) == Pass(Some(m)) && m.role == Some(BuildRole) && m.block == block
    requires ctx.build.duplicates == [] && ctx.build.stale == [m]
    ensures MarkerOf(ctx.Edit(comments[i])) == Pass(Some(after))
    ensures after.role == Some(BuildRole) && after.sha == ctx.head && after.block == block
    ensures after.status == Pending && after.commentId == m.commentId
  {
    hide MarkerOf, RawPayload, Printed, AllMarkers, ResolveMarkers, RolePlan;
    ParsedId(comments[i], m);
    PlanNames(ctx, BuildRole, m.commentId);
    assert Canonical([m]) == m;
    after := RetargetedParses(comments[i], m, ctx.head, ctx.note);
  }

  lemma StaleBuildResolution(
    active: seq<MarkerRecord>, r: Resolution, ms: seq<MarkerRecord>, block: string, head: string)
    requires active == Active(ms, BuildRole) && r.stale != []
    requires ResolveMarkers(ms, BuildRole, block, head, BuildPhase) == Pass(r)
    ensures |r.stale| == 1 && active == r.stale && r.duplicates == [] && r.marker == None
    ensures active[0].block == block && active[0].status == Pending
  {
    hide Active;
    assert AtHead(active, head) == [];
    forall m | m in active ensures m.sha != head {
      assert m in AtHead(active, head) <==> m.sha == head;
    }
    FilterAll((m: MarkerRecord) => m.sha != head, active);
  }

  /** Applying the plan once leaves both roles settled and nothing more to plan. */
  lemma PlanConverges(ctx: Context, comments: seq<Comment>, block: string)
    returns (build: Resolution, audit: Resolution)
    requires Resolved(ctx, comments, block)
    ensures AllMarkers(ctx.Apply(comments)).Pass?
    ensures ResolveMarkers(AllMarkers(ctx.Apply(comments)).value, BuildRole, block, ctx.head, BuildPhase) == Pass(build)
    ensures ResolveMarkers(AllMarkers(ctx.Apply(comments)).value, AuditRole, block, ctx.head, BuildPhase) == Pass(audit)
    ensures PlanOf(build, audit) == []
    ensures Settled(ctx.build, build) && Settled(ctx.audit, audit)
    ensures ctx.build.stale != [] ==>
              && build.marker.Some? && build.marker.value.status == Pending && build.marker.value.sha == ctx.head
              && build.marker.value.commentId == ctx.build.stale[0].commentId
  {
    hide AllMarkers, ResolveMarkers, Context.Apply, Active;
    if ctx.build.stale == [] {
      build := CurrentSettles(ctx, comments, block, BuildRole);
    } else {
      StaleBuildShape(ctx, comments, block);
      build := StaleBuildSettles(ctx, comments, block);
    }
    if ctx.audit.stale == [] {
      audit := CurrentSettles(ctx, comments, block, AuditRole);
    } else {
      StaleAuditResolution(Active(AllMarkers(comments).value, AuditRole), ctx.audit,
                           AllMarkers(comments).value, block, ctx.head);
      audit := StaleAuditSettles(ctx, comments, block);
    }
  }

  lemma StaleBuildShape(ctx: Context, comments: seq<Comment>, block: string)
    requires Resolved(ctx, comments, block) && ctx.build.stale != []
    ensures ctx.build.marker == None
  {
    StaleBuildResolution(Active(AllMarkers(comments).value, BuildRole), ctx.build,
                         AllMarkers(comments).value, block, ctx.head);
  }
}
