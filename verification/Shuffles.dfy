/** Interleavings of several sequences. */
module Shuffles {
  import opened Sequences

  /** `merged` is an interleaving of `parts`: it uses up every part, each in its own order. */
  ghost predicate IsShuffle<T>(merged: seq<T>, parts: seq<seq<T>>)
    decreases |merged|
  {
    if merged == [] then forall i | 0 <= i < |parts| :: parts[i] == []
    else exists i ::
           && 0 <= i < |parts| && parts[i] != [] && Last(parts[i]) == Last(merged)
           && IsShuffle(Front(merged), parts[i := Front(parts[i])])
  }

  lemma ShuffleExtends<T>(merged: seq<T>, parts: seq<seq<T>>, i: nat, x: T)
    requires IsShuffle(merged, parts) && i < |parts|
    ensures IsShuffle(merged + [x], parts[i := parts[i] + [x]])
  {
    var parts' := parts[i := parts[i] + [x]];
    assert Front(merged + [x]) == merged && parts'[i := Front(parts'[i])] == parts;
  }

  function TotalLength<T>(parts: seq<seq<T>>): nat {
    if parts == [] then 0 else TotalLength(Front(parts)) + |Last(parts)|
  }

  lemma {:induction false} TotalLengthUpdate<T>(parts: seq<seq<T>>, i: nat, part: seq<T>)
    requires i < |parts|
    ensures TotalLength(parts[i := part]) + |parts[i]| == TotalLength(parts) + |part|
  {
    if i < |parts| - 1 {
      TotalLengthUpdate(Front(parts), i, part);
      assert Front(parts[i := part]) == Front(parts)[i := part];
    } else {
      assert Front(parts[i := part]) == Front(parts);
    }
  }

  lemma {:induction false} ShuffleLength<T>(merged: seq<T>, parts: seq<seq<T>>)
    requires IsShuffle(merged, parts)
    ensures |merged| == TotalLength(parts)
    decreases |merged|
  {
    if merged == [] {
      NothingToShuffle(parts);
    } else {
      var i :| 0 <= i < |parts| && parts[i] != [] && Last(parts[i]) == Last(merged)
               && IsShuffle(Front(merged), parts[i := Front(parts[i])]);
      ShuffleLength(Front(merged), parts[i := Front(parts[i])]);
      TotalLengthUpdate(parts, i, Front(parts[i]));
    }
  }

  lemma {:induction false} NothingToShuffle<T>(parts: seq<seq<T>>)
    requires forall i | 0 <= i < |parts| :: parts[i] == []
    ensures TotalLength(parts) == 0
  {
    if parts != [] {
      NothingToShuffle(Front(parts));
    }
  }

  /** Place m of `merged` holds element `rank[m]` of part `owner[m]`, in the order of each part. */
  ghost predicate Owned<T>(merged: seq<T>, parts: seq<seq<T>>, owner: seq<nat>, rank: seq<nat>) {
    && |owner| == |rank| == |merged|
    && (forall m | 0 <= m < |merged| ::
          owner[m] < |parts| && rank[m] < |parts[owner[m]]| && parts[owner[m]][rank[m]] == merged[m])
    && (forall l, m | 0 <= l < m < |merged| && owner[l] == owner[m] :: rank[l] < rank[m])
  }

  /** Element k of part i is at `places[i][k]`. */
  ghost predicate Placed<T>(parts: seq<seq<T>>, owner: seq<nat>, rank: seq<nat>, places: seq<seq<nat>>) {
    && |places| == |parts| && |owner| == |rank|
    && (forall i | 0 <= i < |parts| :: |places[i]| == |parts[i]|)
    && (forall i, k | 0 <= i < |parts| && 0 <= k < |parts[i]| ::
          places[i][k] < |owner| && owner[places[i][k]] == i && rank[places[i][k]] == k)
  }

  lemma OwnOneMore<T>(merged: seq<T>, parts: seq<seq<T>>, p: nat, owner: seq<nat>, rank: seq<nat>)
    requires merged != [] && p < |parts| && parts[p] != [] && Last(parts[p]) == Last(merged)
    requires Owned(Front(merged), parts[p := Front(parts[p])], owner, rank)
    ensures Owned(merged, parts, owner + [p], rank + [|parts[p]| - 1])
  {
    var before := parts[p := Front(parts[p])];
    forall m | 0 <= m < |merged| - 1
      ensures owner[m] < |parts| && rank[m] < |parts[owner[m]]| && parts[owner[m]][rank[m]] == merged[m]
    {
      assert before[owner[m]][rank[m]] == Front(merged)[m];
    }
  }

  lemma PlaceOneMore<T>(
      parts: seq<seq<T>>, p: nat, owner: seq<nat>, rank: seq<nat>, places: seq<seq<nat>>, n: nat)
    requires p < |parts| && parts[p] != [] && n == |owner|
    requires Placed(parts[p := Front(parts[p])], owner, rank, places)
    ensures Placed(parts, owner + [p], rank + [|parts[p]| - 1], places[p := places[p] + [n]])
  {
  }

  /** The part that the last element of a shuffle comes from. */
  lemma LastPart<T>(merged: seq<T>, parts: seq<seq<T>>) returns (p: nat)
    requires merged != [] && IsShuffle(merged, parts)
    ensures p < |parts| && parts[p] != [] && Last(parts[p]) == Last(merged)
    ensures IsShuffle(Front(merged), parts[p := Front(parts[p])])
  {
    p :| 0 <= p < |parts| && parts[p] != [] && Last(parts[p]) == Last(merged)
         && IsShuffle(Front(merged), parts[p := Front(parts[p])]);
  }

  lemma NothingPlaced<T>(parts: seq<seq<T>>)
    requires IsShuffle([], parts)
    ensures Owned([], parts, [], []) && Placed(parts, [], [], seq(|parts|, i => []))
  {
  }

  lemma {:induction false} OwnersAndPlaces<T>(merged: seq<T>, parts: seq<seq<T>>)
    returns (owner: seq<nat>, rank: seq<nat>, places: seq<seq<nat>>)
    requires IsShuffle(merged, parts)
    ensures Owned(merged, parts, owner, rank) && Placed(parts, owner, rank, places)
    decreases |merged|
  {
    if merged == [] {
      NothingPlaced(parts);
      owner, rank, places := [], [], seq(|parts|, i => []);
    } else {
      var p := LastPart(merged, parts);
      var o, r, q := OwnersAndPlaces(Front(merged), parts[p := Front(parts[p])]);
      OwnOneMore(merged, parts, p, o, r);
      PlaceOneMore(parts, p, o, r, q, |o|);
      owner, rank, places := o + [p], r + [|parts[p]| - 1], q[p := q[p] + [|o|]];
    }
  }

  /** What a shuffle is, place by place: every place holds one element of one part, within a part the order is
      kept, and every element of every part has its place. */
  lemma ShufflePositions<T>(merged: seq<T>, parts: seq<seq<T>>)
    returns (owner: seq<nat>, rank: seq<nat>, places: seq<seq<nat>>)
    requires IsShuffle(merged, parts)
    ensures |owner| == |rank| == |merged| && |places| == |parts|
    ensures forall m | 0 <= m < |merged| ::
      owner[m] < |parts| && rank[m] < |parts[owner[m]]| && parts[owner[m]][rank[m]] == merged[m]
    ensures forall l, m | 0 <= l < m < |merged| && owner[l] == owner[m] :: rank[l] < rank[m]
    ensures forall i | 0 <= i < |parts| :: |places[i]| == |parts[i]|
    ensures forall i, k | 0 <= i < |parts| && 0 <= k < |parts[i]| ::
      places[i][k] < |merged| && owner[places[i][k]] == i && rank[places[i][k]] == k
  {
    owner, rank, places := OwnersAndPlaces(merged, parts);
  }
}
