/** The walk from the head certificate of a generation back to the baseline of a cut window. */
module AncestorWalk {
  import opened Wrappers
  import opened Sequences

  datatype Reference = Reference(sha: string, path: string)

  datatype Certificate = Certificate(generation: string, previous: Option<Reference>)

  /** The certificates that verify; a reference outside the store does not. */
  type Store = map<Reference, Certificate>

  /** `reference` may be left behind on the way back: it verifies, belongs to the generation, and has an ancestor. */
  predicate Steps(store: Store, generation: string, reference: Reference) {
    reference in store && store[reference].generation == generation && store[reference].previous.Some?
  }

  /** A path of ancestors from `head` to `baseline`, which it meets only at its end. */
  ghost predicate Lineage(store: Store, generation: string, head: Reference, baseline: Reference, path: seq<Reference>) {
    && |path| > 0 && path[0] == head && path[|path| - 1] == baseline
    && (forall i | 0 <= i < |path| - 1 ::
          && path[i] != baseline && path[i] in store && store[path[i]].generation == generation
          && store[path[i]].previous == Some(path[i + 1]))
  }

  ghost predicate DistinctShas(path: seq<Reference>) {
    forall i, j | 0 <= i < j < |path| - 1 :: path[i].sha != path[j].sha
  }

  function Shas(store: Store): set<string> {
    set reference | reference in store :: reference.sha
  }

  /** Where the walk stands after `path`: every reference left behind could be, and none is the baseline. */
  ghost predicate Walked(store: Store, generation: string, head: Reference, baseline: Reference, path: seq<Reference>) {
    && |path| > 0 && path[0] == head
    && (forall i | 0 <= i < |path| - 1 ::
          path[i] != baseline && Steps(store, generation, path[i]) && store[path[i]].previous == Some(path[i + 1]))
    && DistinctShas(path)
  }

  /** Any lineage agrees with the walk as long as the walk goes on. */
  lemma {:induction false} WalkIsPrefix(
    store: Store, generation: string, head: Reference, baseline: Reference, walked: seq<Reference>, path: seq<Reference>)
    requires Walked(store, generation, head, baseline, walked) && Lineage(store, generation, head, baseline, path)
    ensures walked <= path
  {
    if |walked| > 1 {
      var n := |walked| - 1;
      var front := walked[..n];
      assert forall i | 0 <= i < n :: front[i] == walked[i];
      WalkIsPrefix(store, generation, head, baseline, front, path);
      assert path[n - 1] == walked[n - 1];
      assert walked == path[..n + 1];
    }
  }

  /**
   * The walk ends on every store, and accepts exactly if the baseline is an ancestor of the head along
   * certificates of this generation whose digests do not repeat.
   */
  method ReachesBaseline(store: Store, generation: string, head: Reference, baseline: Reference) returns (ok: bool)
    ensures ok <==> exists path :: Lineage(store, generation, head, baseline, path) && DistinctShas(path)
  {
    var reference := head;
    var seen: set<string> := {};
    ghost var path := [head];
    while reference != baseline
      invariant Walked(store, generation, head, baseline, path) && reference == path[|path| - 1]
      invariant seen == set i | 0 <= i < |path| - 1 :: path[i].sha
      invariant seen <= Shas(store)
      decreases Shas(store) - seen
    {
      if reference.sha in seen {
        ghost var k :| 0 <= k < |path| - 1 && path[k].sha == reference.sha;
        Rejected(store, generation, head, baseline, path);
        return false;
      }
      if !Steps(store, generation, reference) {
        Rejected(store, generation, head, baseline, path);
        return false;
      }
      ghost var before := path;
      path := path + [store[reference].previous.value];
      assert forall i | 0 <= i < |before| :: path[i] == before[i];
      assert forall i | 0 <= i < |path| - 1 :: path[i] == before[i];
      seen := seen + {reference.sha};
      reference := store[reference].previous.value;
    }
    assert Lineage(store, generation, head, baseline, path);
    ok := true;
  }

  lemma Rejected(store: Store, generation: string, head: Reference, baseline: Reference, walked: seq<Reference>)
    requires Walked(store, generation, head, baseline, walked)
    requires var last := walked[|walked| - 1];
             last != baseline
             && (!Steps(store, generation, last) || exists k :: 0 <= k < |walked| - 1 && walked[k].sha == last.sha)
    ensures forall path :: !(Lineage(store, generation, head, baseline, path) && DistinctShas(path))
  {
    var n := |walked| - 1;
    forall path | Lineage(store, generation, head, baseline, path) ensures !DistinctShas(path) {
      WalkIsPrefix(store, generation, head, baseline, walked, path);
      assert path[n] == walked[n] && n < |path| - 1;
      assert store[path[n]].previous == Some(path[n + 1]);
      assert Steps(store, generation, walked[n]);
      var k :| 0 <= k < n && walked[k].sha == walked[n].sha;
      assert path[k] == walked[k];
    }
  }

  /** Where a digest names one reference only, the repetition check rejects no lineage. */
  lemma {:induction false} DigestsNeverReject(
    store: Store, generation: string, head: Reference, baseline: Reference, path: seq<Reference>)
    requires Lineage(store, generation, head, baseline, path)
    requires forall a, b | a in store && b in store && a.sha == b.sha :: a == b
    ensures DistinctShas(path)
  {
    forall i, j | 0 <= i < j < |path| - 1 ensures path[i].sha != path[j].sha {
      if path[i].sha == path[j].sha {
        LoopNeverEnds(store, generation, head, baseline, path, i, j);
      }
    }
  }

  /** From two equal references a lineage repeats itself and misses the baseline. */
  lemma {:induction false} LoopNeverEnds(
    store: Store, generation: string, head: Reference, baseline: Reference, path: seq<Reference>, i: nat, j: nat)
    requires Lineage(store, generation, head, baseline, path) && i < j < |path| && path[i] == path[j]
    ensures false
    decreases |path| - j
  {
    if j < |path| - 1 {
      assert path[i + 1] == path[j + 1];
      LoopNeverEnds(store, generation, head, baseline, path, i + 1, j + 1);
    }
  }
}
