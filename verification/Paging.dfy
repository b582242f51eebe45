/** Cursor paging over a review list, and the verdict folded from it. */
module Paging {
  import opened Wrappers
  import opened Sequences
  import opened TextOrder

  /** One page as the server answers it. When more follows it names the next cursor, or a blank one. */
  datatype Page<T> = Page(nodes: seq<T>, next: Option<string>)

  /** A server that answers every cursor, and hands out cursors of a finite set only. */
  datatype Server<T> = Server(first: Page<T>, after: map<string, Page<T>>)

  ghost predicate Closed<T>(server: Server<T>) {
    && Answers(server, server.first)
    && forall c | c in server.after :: Answers(server, server.after[c])
  }

  predicate Answers<T>(server: Server<T>, page: Page<T>) {
    page.next.Some? && page.next.value != "" ==> page.next.value in server.after
  }

  function PageAt<T>(server: Server<T>, cursor: Option<string>): Page<T>
    requires cursor.Some? ==> cursor.value in server.after
  {
    if cursor.None? then server.first else server.after[cursor.value]
  }

  /** Following `cursors` one after the other is what the server's pages ask for; a blank one is not followed. */
  ghost predicate IsTrail<T>(server: Server<T>, cursors: seq<string>)
    requires Closed(server)
  {
    && (forall i | 0 <= i < |cursors| :: cursors[i] in server.after && cursors[i] != "")
    && (|cursors| > 0 ==> server.first.next == Some(cursors[0]))
    && forall i | 0 <= i < |cursors| - 1 :: server.after[cursors[i]].next == Some(cursors[i + 1])
  }

  function Last<T>(server: Server<T>, cursors: seq<string>): Page<T>
    requires forall i | 0 <= i < |cursors| :: cursors[i] in server.after
  {
    if cursors == [] then server.first else server.after[cursors[|cursors| - 1]]
  }

  function Nodes<T>(server: Server<T>, cursors: seq<string>): seq<T>
    requires forall i | 0 <= i < |cursors| :: cursors[i] in server.after
  {
    if cursors == [] then server.first.nodes
    else Nodes(server, cursors[..|cursors| - 1]) + server.after[cursors[|cursors| - 1]].nodes
  }

  /** A trail without repetition whose last page has no successor. */
  ghost predicate Ends<T>(server: Server<T>, trail: seq<string>)
    requires Closed(server)
  {
    IsTrail(server, trail) && Distinct(trail) && Last(server, trail).next.None?
  }

  /** A trail that comes to a cursor handed out before, or to a blank one. */
  ghost predicate Breaks<T>(server: Server<T>, trail: seq<string>)
    requires Closed(server)
  {
    IsTrail(server, trail) && (!Distinct(trail) || Last(server, trail).next == Some(""))
  }

  /** A server leaves no choice: of two trails the shorter one is the beginning of the other. */
  lemma {:induction false} TrailsAgree<T>(server: Server<T>, a: seq<string>, b: seq<string>)
    requires Closed(server) && IsTrail(server, a) && IsTrail(server, b) && |a| <= |b|
    ensures a <= b
    ensures |a| < |b| ==> Last(server, a).next == Some(b[|a|])
  {
    if a != [] {
      var n := |a| - 1;
      assert forall i | 0 <= i < n :: a[..n][i] == a[i];
      TrailsAgree(server, a[..n], b);
      assert Last(server, a[..n]).next == Some(a[n]);
      assert a == a[..n] + [a[n]];
    }
  }

  lemma EndsOrBreaks<T>(server: Server<T>, end: seq<string>, other: seq<string>)
    requires Closed(server) && Ends(server, end)
    ensures !Breaks(server, other)
    ensures Ends(server, other) ==> other == end
  {
    if IsTrail(server, other) {
      if |other| <= |end| {
        TrailsAgree(server, other, end);
        PrefixIsDistinct(other, end);
      } else {
        TrailsAgree(server, end, other);
      }
    }
  }

  /**
   * The paging loop. It ends on every finite server: with the nodes of all pages along the one trail that
   * has no repetition and no successor, if there is such a trail, and exactly otherwise because the
   * server handed out a cursor twice or a blank one.
   */
  method Connection<T>(server: Server<T>) returns (r: Guarded<seq<T>>)
    requires Closed(server)
    ensures r.Pass? <==> exists trail :: Ends(server, trail)
    ensures r.GuardFailure? <==> exists trail :: Breaks(server, trail)
    ensures forall trail | Ends(server, trail) :: r == Pass(Nodes(server, trail))
  {
    var cursor: Option<string> := None;
    var seen: set<string> := {};
    var nodes: seq<T> := [];
    ghost var trail: seq<string> := [];
    while true
      invariant seen <= server.after.Keys && seen == Elements(trail)
      invariant IsTrail(server, trail) && Distinct(trail)
      invariant cursor == if trail == [] then None else Some(trail[|trail| - 1])
      invariant nodes == if trail == [] then [] else Nodes(server, trail[..|trail| - 1])
      decreases server.after.Keys - seen
    {
      var page := PageAt(server, cursor);
      nodes := nodes + page.nodes;
      assert nodes == Nodes(server, trail);
      if page.next.None? {
        assert Ends(server, trail);
        forall other ensures !Breaks(server, other) && (Ends(server, other) ==> other == trail) {
          EndsOrBreaks(server, trail, other);
        }
        return Pass(nodes);
      }
      if page.next.value == "" {
        assert Breaks(server, trail);
        forall other ensures !Ends(server, other) {
          NoEnd(server, trail, other);
        }
        return GuardFailure;
      }
      ghost var before := trail;
      trail := trail + [page.next.value];
      assert trail[..|trail| - 1] == before;
      if page.next.value in seen {
        ghost var i :| 0 <= i < |before| && before[i] == page.next.value;
        assert trail[i] == trail[|before|];
        assert Breaks(server, trail);
        forall other ensures !Ends(server, other) {
          NoEnd(server, trail, other);
        }
        return GuardFailure;
      }
      seen := seen + {page.next.value};
      cursor := page.next;
    }
  }

  lemma NoEnd<T>(server: Server<T>, broken: seq<string>, other: seq<string>)
    requires Closed(server) && Breaks(server, broken)
    ensures !Ends(server, other)
  {
    if Ends(server, other) {
      EndsOrBreaks(server, other, broken);
    }
  }

  // ----- A list cut into pages -----

  function Flatten<T>(chunks: seq<seq<T>>): seq<T> {
    if chunks == [] then [] else Flatten(chunks[..|chunks| - 1]) + chunks[|chunks| - 1]
  }

  /** `server` serves `chunks` page by page, the cursors being `names`. */
  ghost predicate Serves<T>(server: Server<T>, chunks: seq<seq<T>>, names: seq<string>) {
    && |chunks| == |names| + 1 && Distinct(names) && "" !in names
    && server.after.Keys == Elements(names)
    && server.first == Page(chunks[0], NameAt(names, 0))
    && forall i | 0 <= i < |names| ::
         names[i] in server.after && server.after[names[i]] == Page(chunks[i + 1], NameAt(names, i + 1))
  }

  function NameAt(names: seq<string>, i: nat): Option<string>
    requires i <= |names|
  {
    if i == |names| then None else Some(names[i])
  }

  lemma NameAtIs(names: seq<string>, i: nat)
    requires i <= |names|
    ensures i < |names| ==> NameAt(names, i) == Some(names[i])
    ensures i == |names| ==> NameAt(names, i) == None
  {
  }

  lemma NameIsServed<T>(server: Server<T>, chunks: seq<seq<T>>, names: seq<string>, i: nat)
    requires Serves(server, chunks, names) && i <= |names|
    ensures NameAt(names, i).Some? ==> NameAt(names, i).value in server.after && NameAt(names, i).value != ""
  {
    if i < |names| {
      assert names[i] in names;
      assert names[i] in server.after;
    }
  }

  lemma ServedIsClosed<T>(server: Server<T>, chunks: seq<seq<T>>, names: seq<string>)
    requires Serves(server, chunks, names)
    ensures Closed(server)
  {
    NameIsServed(server, chunks, names, 0);
    forall c | c in server.after ensures Answers(server, server.after[c]) {
      assert c in Elements(names);
      var i :| 0 <= i < |names| && names[i] == c;
      assert server.after[c] == Page(chunks[i + 1], NameAt(names, i + 1));
      NameIsServed(server, chunks, names, i + 1);
    }
  }

  lemma {:induction false} TrailIsNames<T>(server: Server<T>, chunks: seq<seq<T>>, names: seq<string>, trail: seq<string>)
    requires Closed(server) && Serves(server, chunks, names) && IsTrail(server, trail)
    ensures trail <= names
    ensures Last(server, trail).next == NameAt(names, |trail|)
  {
    hide NameAt;
    if trail != [] {
      var n := |trail| - 1;
      var front := trail[..n];
      assert forall i | 0 <= i < n :: front[i] == trail[i];
      TrailIsNames(server, chunks, names, front);
      assert Last(server, front).next == Some(trail[n]);
      NameAtIs(names, n);
      assert trail[n] == names[n];
      assert trail == names[..n + 1];
      assert Last(server, trail) == server.after[names[n]];
    }
  }

  lemma {:induction false} NodesAreFlat<T>(server: Server<T>, chunks: seq<seq<T>>, names: seq<string>, n: nat)
    requires Serves(server, chunks, names) && n <= |names|
    ensures forall i | 0 <= i < n :: names[i] in server.after
    ensures Nodes(server, names[..n]) == Flatten(chunks[..n + 1])
  {
    hide NameAt;
    assert chunks[..n + 1][..n] == chunks[..n];
    if n == 0 {
      assert chunks[..0] == [] && chunks[..1] == [chunks[0]];
      assert Flatten(chunks[..0]) == [];
    } else {
      NodesAreFlat(server, chunks, names, n - 1);
      assert names[..n][..n - 1] == names[..n - 1];
    }
  }

  lemma PrefixIsDistinct(a: seq<string>, b: seq<string>)
    requires a <= b && Distinct(b)
    ensures Distinct(a)
  {
    assert forall i | 0 <= i < |a| :: a[i] == b[i];
  }

  /** However a list is cut into pages, paging returns the list and never fails. */
  method PagingIsTransparent<T>(server: Server<T>, ghost chunks: seq<seq<T>>, ghost names: seq<string>)
    returns (r: Guarded<seq<T>>)
    requires Serves(server, chunks, names)
    ensures r == Pass(Flatten(chunks))
  {
    hide NameAt;
    ServedIsClosed(server, chunks, names);
    r := Connection(server);
    ghost var trail: seq<string> :| if r.Pass? then Ends(server, trail) else Breaks(server, trail);
    TrailIsNames(server, chunks, names, trail);
    NameIsServed(server, chunks, names, |trail|);
    NameAtIs(names, |trail|);
    PrefixIsDistinct(trail, names);
    assert |trail| == |names| ==> trail == names;
    assert names[..|names|] == names && chunks[..|names| + 1] == chunks;
    NodesAreFlat(server, chunks, names, |names|);
  }

  // ----- The verdict -----

  datatype State = Approved | ChangesRequested | Commented | Dismissed | PendingReview | UnknownState

  datatype Review = Review(reviewer: string, at: string, id: string, state: State)

  /** Later by time, then by id. */
  predicate Later(a: Review, b: Review) {
    TextLess(b.at, a.at) || (a.at == b.at && TextLess(b.id, a.id))
  }

  lemma LaterOrder(a: Review, b: Review, c: Review)
    ensures Later(a, b) ==> !Later(b, a)
    ensures (a.at, a.id) != (b.at, b.id) ==> Later(a, b) || Later(b, a)
    ensures Later(a, b) && Later(b, c) ==> Later(a, c)
    ensures Later(a, b) && (c.at, c.id) == (b.at, b.id) ==> Later(a, c)
  {
    TextsCompare(a.at, b.at);
    TextsCompare(a.id, b.id);
    if Later(a, b) && Later(b, c) {
      if TextLess(b.at, a.at) && TextLess(c.at, b.at) {
        TextTransitive(c.at, b.at, a.at);
      }
      if a.at == b.at && b.at == c.at {
        TextTransitive(c.id, b.id, a.id);
      }
    }
  }

  /** `r` is the first among the latest reviews of its reviewer. */
  ghost predicate IsLatest(reviews: seq<Review>, i: int) {
    && 0 <= i < |reviews|
    && (forall j | 0 <= j < |reviews| && reviews[j].reviewer == reviews[i].reviewer :: !Later(reviews[j], reviews[i]))
    && forall j | 0 <= j < i && reviews[j].reviewer == reviews[i].reviewer :: Later(reviews[i], reviews[j])
  }

  /** Some reviewer's latest review has this state. */
  ghost predicate SomeLatest(reviews: seq<Review>, state: State) {
    exists i :: IsLatest(reviews, i) && reviews[i].state == state
  }

  ghost predicate Latest(table: map<string, Review>, reviews: seq<Review>) {
    && (forall i | 0 <= i < |reviews| :: reviews[i].reviewer in table)
    && forall reviewer | reviewer in table ::
         exists i :: IsLatest(reviews, i) && reviews[i] == table[reviewer] && reviews[i].reviewer == reviewer
  }

  lemma LatestGrows(table: map<string, Review>, reviews: seq<Review>, r: Review)
    requires Latest(table, reviews)
    ensures Latest(if r.reviewer in table && !Later(r, table[r.reviewer]) then table else table[r.reviewer := r], reviews + [r])
  {
    hide Later;
    var all := reviews + [r];
    var n := |reviews|;
    var keep := r.reviewer in table && !Later(r, table[r.reviewer]);
    var next := if keep then table else table[r.reviewer := r];
    assert forall i | 0 <= i < n :: all[i] == reviews[i];
    forall reviewer | reviewer in next
      ensures exists i :: IsLatest(all, i) && all[i] == next[reviewer] && all[i].reviewer == reviewer
    {
      if reviewer == r.reviewer && !keep {
        if reviewer in table {
          var i :| IsLatest(reviews, i) && reviews[i] == table[reviewer] && reviews[i].reviewer == reviewer;
          forall j | 0 <= j < n && reviews[j].reviewer == reviewer ensures Later(r, reviews[j]) && !Later(reviews[j], r) {
            LatestLoses(reviews, i, j, r);
          }
        }
        LaterOrder(r, r, r);
        assert IsLatest(all, n);
      } else {
        var i :| IsLatest(reviews, i) && reviews[i] == table[reviewer] && reviews[i].reviewer == reviewer;
        assert IsLatest(all, i);
      }
    }
  }

  lemma LatestLoses(reviews: seq<Review>, i: int, j: int, r: Review)
    requires IsLatest(reviews, i) && 0 <= j < |reviews| && reviews[j].reviewer == reviews[i].reviewer
    requires Later(r, reviews[i])
    ensures Later(r, reviews[j]) && !Later(reviews[j], r)
  {
    hide Later;
    LaterOrder(reviews[i], reviews[j], r);
    LaterOrder(r, reviews[i], reviews[j]);
    LaterOrder(r, reviews[j], r);
  }

  /** Keeps each reviewer's latest review, then looks for one that requests changes. */
  method RequestsChanges(reviews: seq<Review>) returns (r: Guarded<bool>)
    ensures r.GuardFailure? <==> (exists i :: 0 <= i < |reviews| && reviews[i].state.UnknownState?) || SomeLatest(reviews, PendingReview)
    ensures r.Pass? ==> (r.value <==> SomeLatest(reviews, ChangesRequested))
  {
    hide Later, IsLatest;
    var table: map<string, Review> := map[];
    for i := 0 to |reviews|
      invariant Latest(table, reviews[..i])
      invariant forall k | 0 <= k < i :: !reviews[k].state.UnknownState?
    {
      var review := reviews[i];
      if review.state.UnknownState? {
        return GuardFailure;
      }
      assert reviews[..i + 1] == reviews[..i] + [review];
      LatestGrows(table, reviews[..i], review);
      if review.reviewer !in table || Later(review, table[review.reviewer]) {
        table := table[review.reviewer := review];
      }
    }
    assert reviews[..|reviews|] == reviews;
    TableTells(table, reviews, PendingReview);
    TableTells(table, reviews, ChangesRequested);
    if exists reviewer | reviewer in table :: table[reviewer].state.PendingReview? {
      return GuardFailure;
    }
    r := Pass(exists reviewer | reviewer in table :: table[reviewer].state.ChangesRequested?);
  }

  lemma LatestIsOne(reviews: seq<Review>, i: int, j: int)
    requires IsLatest(reviews, i) && IsLatest(reviews, j) && reviews[i].reviewer == reviews[j].reviewer
    ensures i == j
  {
    hide Later;
  }

  lemma TableTells(table: map<string, Review>, reviews: seq<Review>, state: State)
    requires Latest(table, reviews)
    ensures (exists reviewer | reviewer in table :: table[reviewer].state == state) <==> SomeLatest(reviews, state)
  {
    hide Later;
    if SomeLatest(reviews, state) {
      var i :| IsLatest(reviews, i) && reviews[i].state == state;
      var k :| IsLatest(reviews, k) && reviews[k] == table[reviews[i].reviewer] && reviews[k].reviewer == reviews[i].reviewer;
      LatestIsOne(reviews, i, k);
      assert table[reviews[i].reviewer].state == state;
    }
  }

  /** No reviewer has two reviews of the same time and id. */
  ghost predicate DistinctKeys(reviews: seq<Review>) {
    forall i, j | 0 <= i < j < |reviews| && reviews[i].reviewer == reviews[j].reviewer ::
      (reviews[i].at, reviews[i].id) != (reviews[j].at, reviews[j].id)
  }

  lemma LatestCarries(a: seq<Review>, b: seq<Review>, state: State)
    requires DistinctKeys(b) && multiset(a) == multiset(b) && SomeLatest(a, state)
    ensures SomeLatest(b, state)
  {
    hide Later;
    var i :| IsLatest(a, i) && a[i].state == state;
    assert a[i] in multiset(b);
    var j :| 0 <= j < |b| && b[j] == a[i];
    forall k | 0 <= k < |b| && b[k].reviewer == b[j].reviewer ensures !Later(b[k], b[j]) {
      assert b[k] in multiset(a);
      var l :| 0 <= l < |a| && a[l] == b[k];
    }
    forall k | 0 <= k < j && b[k].reviewer == b[j].reviewer ensures Later(b[j], b[k]) {
      LaterOrder(b[j], b[k], b[j]);
    }
    assert IsLatest(b, j);
  }

  /** With distinct keys the verdict does not depend on the order of the reviews. */
  lemma VerdictIgnoresOrder(a: seq<Review>, b: seq<Review>, state: State)
    requires DistinctKeys(a) && DistinctKeys(b) && multiset(a) == multiset(b)
    ensures SomeLatest(a, state) <==> SomeLatest(b, state)
  {
    hide SomeLatest, DistinctKeys;
    if SomeLatest(a, state) {
      LatestCarries(a, b, state);
    }
    if SomeLatest(b, state) {
      LatestCarries(b, a, state);
    }
  }
}
