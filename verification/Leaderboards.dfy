/** The leaderboard: best score per player, and rankings that depend only on what was recorded, not on the
    order or the repetition of the recordings. */
module Leaderboards {
  import opened Wrappers
  import opened Sequences
  import opened Ranking

  /** One accepted `record_score` call. */
  datatype Recording = Recording(playerId: string, score: nat)

  /** The score table after a history of recordings. */
  function Scores(history: seq<Recording>): map<string, nat> {
    if history == [] then map[]
    else
      var scores, r := Scores(Front(history)), Last(history);
      if r.playerId in scores && r.score <= scores[r.playerId] then scores else scores[r.playerId := r.score]
  }

  /** `best` is among the scores recorded for `p` and none of them is higher. */
  ghost predicate IsBest(history: seq<Recording>, p: string, best: nat) {
    && Recording(p, best) in history
    && forall r | r in history && r.playerId == p :: r.score <= best
  }

  /** The table holds exactly the players recorded, each with the maximum over the whole history. */
  lemma {:induction false} ScoresAreMaxima(history: seq<Recording>, p: string)
    ensures p in Scores(history) <==> exists r :: r in history && r.playerId == p
    ensures p in Scores(history) ==> IsBest(history, p, Scores(history)[p])
    ensures p in Scores(history) ==>
      && Recording(p, Scores(history)[p]) in history
      && forall r | r in history && r.playerId == p :: r.score <= Scores(history)[p]
  {
    if history != [] {
      ScoresAreMaxima(Front(history), p);
      assert history == Front(history) + [Last(history)];
      if r :| r in Front(history) && r.playerId == p {
        assert r in history;
      }
      assert Last(history) in history;
    }
  }

  /** Any permutation and any repetition of the same recordings gives the same table. */
  lemma OrderIrrelevant(a: seq<Recording>, b: seq<Recording>)
    requires forall r :: r in a <==> r in b
    ensures Scores(a) == Scores(b)
  {
    forall p ensures p in Scores(a) <==> p in Scores(b) {
      ScoresAreMaxima(a, p);
      ScoresAreMaxima(b, p);
    }
    forall p | p in Scores(a) ensures Scores(a)[p] == Scores(b)[p] {
      ScoresAreMaxima(a, p);
      ScoresAreMaxima(b, p);
      assert Recording(p, Scores(a)[p]) in b && Recording(p, Scores(b)[p]) in a;
    }
  }

  /** So two boards that have heard the same recordings, in whatever order and however often, agree on every
      ranking. */
  lemma SameTop(a: seq<Recording>, b: seq<Recording>, limit: nat, topA: seq<ScoreEntry>, topB: seq<ScoreEntry>)
    requires forall r :: r in a <==> r in b
    requires IsTop(Scores(a), limit, topA) && IsTop(Scores(b), limit, topB)
    ensures topA == topB
  {
    OrderIrrelevant(a, b);
    TopUnique(Scores(a), limit, topA, topB);
  }

  datatype BoardError = EmptyPlayer | NegativeScore | BadLimit

  class Leaderboard {
    var scores: map<string, nat>
    ghost var history: seq<Recording>

    ghost predicate Valid()
      reads this
    {
      scores == Scores(history)
    }

    constructor ()
      ensures Valid() && history == [] && scores == map[]
    {
      scores, history := map[], [];
    }

    method RecordScore(playerId: string, score: int) returns (r: Result<(), BoardError>)
      requires Valid()
      modifies this
      ensures Valid()
      ensures r == if playerId == "" then Raised(EmptyPlayer)
                   else if score < 0 then Raised(NegativeScore)
                   else Returned(())
      ensures history == old(history) + if r.Returned? then [Recording(playerId, score)] else []
      ensures scores ==
        if r.Returned? && (playerId !in old(scores) || score > old(scores)[playerId])
        then old(scores)[playerId := score] else old(scores)
    {
      if playerId == "" {
        return Raised(EmptyPlayer);
      }
      if score < 0 {
        return Raised(NegativeScore);
      }
      if playerId !in scores || score > scores[playerId] {
        scores := scores[playerId := score];
      }
      history := history + [Recording(playerId, score)];
      assert Front(history) == old(history);
      r := Returned(());
    }

    method ScoreFor(playerId: string) returns (r: Result<Option<nat>, BoardError>)
      requires Valid()
      ensures playerId == "" <==> r == Raised(EmptyPlayer)
      ensures playerId != "" ==> r.Returned?
      ensures r.Returned? && r.value.Some? ==>
        && Recording(playerId, r.value.value) in history
        && forall x | x in history && x.playerId == playerId :: x.score <= r.value.value
      ensures r.Returned? && r.value.None? ==> forall x | x in history :: x.playerId != playerId
    {
      if playerId == "" {
        return Raised(EmptyPlayer);
      }
      ScoresAreMaxima(history, playerId);
      r := Returned(if playerId in scores then Some(scores[playerId]) else None);
    }

    /** All entries in rank order: `sorted` over the table's items, which come in no particular order. */
    method SortedEntries() returns (r: seq<ScoreEntry>)
      requires Valid()
      ensures IsTop(scores, |scores|, r)
    {
      r := [];
      var left := scores.Keys;
      while left != {}
        invariant left <= scores.Keys && |r| + |left| == |scores|
        invariant Ascending(RanksBefore, r)
        invariant forall e :: e in r <==> IsEntry(scores, e) && e.playerId !in left
        decreases |left|
      {
        var p :| p in left;
        InsertAscends(EntryOf(scores, p), r);
        r := Insert(EntryOf(scores, p), r);
        left := left - {p};
      }
    }

    method Top(limit: int) returns (r: Result<seq<ScoreEntry>, BoardError>)
      requires Valid()
      ensures r.Raised? <==> limit <= 0
      ensures r.Returned? ==> IsTop(Scores(history), limit, r.value)
      ensures r.Returned? ==>
        var top, scores := r.value, Scores(history);
        && |top| == (if limit < |scores| then limit else |scores|)
        && (forall e | e in top :: e.playerId in scores && scores[e.playerId] == e.score)
        && (forall i, j | 0 <= i < j < |top| ::
              && top[i].score >= top[j].score && top[i].playerId != top[j].playerId
              && (top[i].score == top[j].score ==> LexLess(top[i].playerId, top[j].playerId)))
        && (forall e, p | e in top && p in scores && (forall x | x in top :: x.playerId != p) ::
              e.score >= scores[p] && (e.score == scores[p] ==> LexLess(e.playerId, p)))
    {
      if limit <= 0 {
        return Raised(BadLimit);
      }
      var sorted := SortedEntries();
      r := Returned(sorted[..Min(limit, |sorted|)]);
      if limit <= |scores| {
        CutOfTop(scores, limit, |scores|, sorted);
      }
      TopMeans(scores, limit, r.value);
    }

    method Snapshot() returns (r: map<string, nat>)
      requires Valid()
      ensures r == Scores(history)
    {
      r := scores;
    }
  }
}
