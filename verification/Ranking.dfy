/** The leaderboard's order: score descending, then player ID by code points. */
module Ranking {
  import opened Sequences

  predicate LexLess(a: string, b: string) {
    b != "" && (a == "" || a[0] < b[0] || (a[0] == b[0] && LexLess(a[1..], b[1..])))
  }

  lemma {:induction false} LexAsymmetric(a: string, b: string)
    requires LexLess(a, b)
    ensures !LexLess(b, a)
  {
    if a != "" && a[0] == b[0] {
      LexAsymmetric(a[1..], b[1..]);
    }
  }

  lemma {:induction false} LexTotal(a: string, b: string)
    ensures a == b || LexLess(a, b) || LexLess(b, a)
  {
    if a != "" && b != "" && a[0] == b[0] {
      LexTotal(a[1..], b[1..]);
      assert a == [a[0]] + a[1..] && b == [b[0]] + b[1..];
    }
  }

  lemma {:induction false} LexTransitive(a: string, b: string, c: string)
    requires LexLess(a, b) && LexLess(b, c)
    ensures LexLess(a, c)
  {
    if a != "" && a[0] == b[0] == c[0] {
      LexTransitive(a[1..], b[1..], c[1..]);
    }
  }

  /** The order on the characters: at the first difference the smaller character comes first, and a proper
      prefix comes before what it is a prefix of. */
  lemma {:induction false} LexLessExactly(a: string, b: string)
    ensures LexLess(a, b) <==> exists k ::
      && 0 <= k <= |a| && k < |b| && a[..k] == b[..k]
      && (k == |a| || (k < |a| && a[k] < b[k]))
  {
    if LexLess(a, b) {
      var k := FirstDifference(a, b);
    }
    if k :| 0 <= k <= |a| && k < |b| && a[..k] == b[..k] && (k == |a| || (k < |a| && a[k] < b[k])) {
      LessAtDifference(a, b, k);
    }
  }

  lemma {:induction false} FirstDifference(a: string, b: string) returns (k: nat)
    requires LexLess(a, b)
    ensures k <= |a| && k < |b| && a[..k] == b[..k] && (k == |a| || (k < |a| && a[k] < b[k]))
  {
    k := 0;
    if a != "" && a[0] == b[0] {
      var rest := FirstDifference(a[1..], b[1..]);
      k := rest + 1;
      assert a[..k] == [a[0]] + a[1..][..rest] && b[..k] == [b[0]] + b[1..][..rest];
    }
  }

  lemma {:induction false} LessAtDifference(a: string, b: string, k: nat)
    requires k <= |a| && k < |b| && a[..k] == b[..k] && (k == |a| || (k < |a| && a[k] < b[k]))
    ensures LexLess(a, b)
  {
    if k > 0 {
      assert a[0] == a[..k][0] == b[..k][0] == b[0];
      assert a[1..][..k - 1] == a[..k][1..] && b[1..][..k - 1] == b[..k][1..];
      LessAtDifference(a[1..], b[1..], k - 1);
    }
  }

  datatype ScoreEntry = ScoreEntry(playerId: string, score: nat)

  predicate RanksBefore(a: ScoreEntry, b: ScoreEntry) {
    a.score > b.score || (a.score == b.score && LexLess(a.playerId, b.playerId))
  }

  lemma RanksAsymmetric()
    ensures Asymmetric(RanksBefore)
  {
    forall a: ScoreEntry, b: ScoreEntry | RanksBefore(a, b) ensures !RanksBefore(b, a) {
      if a.score == b.score {
        LexAsymmetric(a.playerId, b.playerId);
      }
    }
  }

  lemma RanksTotal(a: ScoreEntry, b: ScoreEntry)
    requires a.playerId != b.playerId
    ensures RanksBefore(a, b) || RanksBefore(b, a)
  {
    LexTotal(a.playerId, b.playerId);
  }

  lemma RanksTransitive(a: ScoreEntry, b: ScoreEntry, c: ScoreEntry)
    requires RanksBefore(a, b) && RanksBefore(b, c)
    ensures RanksBefore(a, c)
  {
    if a.score == b.score == c.score {
      LexTransitive(a.playerId, b.playerId, c.playerId);
    }
  }

  // ---- The top of a score table

  function EntryOf(scores: map<string, nat>, p: string): ScoreEntry
    requires p in scores
  {
    ScoreEntry(p, scores[p])
  }

  ghost predicate IsEntry(scores: map<string, nat>, e: ScoreEntry) {
    e.playerId in scores && scores[e.playerId] == e.score
  }

  function Min(a: nat, b: nat): nat {
    if a < b then a else b
  }

  /** `r` lists, in strict rank order, as many entries as asked for or as there are, and everyone left out
      ranks below everyone listed. */
  ghost predicate IsTop(scores: map<string, nat>, limit: nat, r: seq<ScoreEntry>) {
    && Ascending(RanksBefore, r)
    && |r| == Min(limit, |scores|)
    && (forall e | e in r :: IsEntry(scores, e))
    && (forall e, out | e in r && IsEntry(scores, out) && out !in r :: RanksBefore(e, out))
  }

  lemma {:induction false} AscendingSize(s: seq<ScoreEntry>)
    requires Ascending(RanksBefore, s)
    ensures |set e | e in s| == |s|
  {
    RanksAsymmetric();
    if s != [] {
      AscendingSize(Front(s));
      forall e ensures e in Front(s) <==> e in s && e != Last(s) {
        FrontElements(RanksBefore, s, e);
      }
      assert (set e | e in s) == (set e | e in Front(s)) + {Last(s)};
      assert Last(s) !in (set e | e in Front(s));
    }
  }

  lemma TopContains(scores: map<string, nat>, limit: nat, a: seq<ScoreEntry>, b: seq<ScoreEntry>, x: ScoreEntry)
    requires IsTop(scores, limit, a) && IsTop(scores, limit, b) && x in a
    ensures x in b
  {
    RanksAsymmetric();
    if x !in b {
      AscendingSize(a);
      AscendingSize(b);
      var inA, inB := set e | e in a, set e | e in b;
      assert x in inA;
      forall y | y in b ensures y in a {
        assert RanksBefore(y, x);
        assert !RanksBefore(x, y);
      }
      SubsetOfSameSize(inB, inA);
    }
  }

  lemma SubsetOfSameSize<T>(a: set<T>, b: set<T>)
    requires a <= b && |a| == |b|
    ensures a == b
  {
    assert b == a + (b - a);
  }

  /** What a top list is, on scores and player IDs: scores do not increase along it, equal scores are in
      ascending ID order, and every player left out scores less than every listed one, or the same with a
      later ID. */
  lemma TopMeans(scores: map<string, nat>, limit: nat, top: seq<ScoreEntry>)
    requires IsTop(scores, limit, top)
    ensures |top| == if limit < |scores| then limit else |scores|
    ensures forall e | e in top :: e.playerId in scores && scores[e.playerId] == e.score
    ensures forall i, j | 0 <= i < j < |top| ::
      && top[i].score >= top[j].score && top[i].playerId != top[j].playerId
      && (top[i].score == top[j].score ==> LexLess(top[i].playerId, top[j].playerId))
    ensures forall e, p | e in top && p in scores && (forall x | x in top :: x.playerId != p) ::
      e.score >= scores[p] && (e.score == scores[p] ==> LexLess(e.playerId, p))
  {
    forall i, j | 0 <= i < j < |top|
      ensures top[i].score >= top[j].score && top[i].playerId != top[j].playerId
      ensures top[i].score == top[j].score ==> LexLess(top[i].playerId, top[j].playerId)
    {
      assert RanksBefore(top[i], top[j]);
      assert top[i] in top && top[j] in top;
      if top[i].playerId == top[j].playerId {
        LexAsymmetric(top[i].playerId, top[j].playerId);
      }
    }
    forall e, p | e in top && p in scores && (forall x | x in top :: x.playerId != p)
      ensures e.score >= scores[p] && (e.score == scores[p] ==> LexLess(e.playerId, p))
    {
      assert IsEntry(scores, EntryOf(scores, p)) && EntryOf(scores, p) !in top;
      assert RanksBefore(e, EntryOf(scores, p));
    }
  }

  /** The top of a score table is unique. */
  lemma TopUnique(scores: map<string, nat>, limit: nat, a: seq<ScoreEntry>, b: seq<ScoreEntry>)
    requires IsTop(scores, limit, a) && IsTop(scores, limit, b)
    ensures a == b
  {
    RanksAsymmetric();
    forall x ensures x in a <==> x in b {
      if x in a { TopContains(scores, limit, a, b, x); }
      if x in b { TopContains(scores, limit, b, a, x); }
    }
    AscendingUnique(RanksBefore, a, b);
  }

  lemma CutRanksBefore(all: seq<ScoreEntry>, n: nat, e: ScoreEntry, out: ScoreEntry)
    requires Ascending(RanksBefore, all) && n <= |all| && e in all[..n] && out in all[n..]
    ensures RanksBefore(e, out)
  {
    var i :| 0 <= i < n && all[..n][i] == e;
    var j :| 0 <= j < |all| - n && all[n..][j] == out;
    assert all[i] == e && all[n + j] == out;
  }

  /** The first entries of a longer top are the shorter top. */
  lemma CutOfTop(scores: map<string, nat>, k: nat, limit: nat, all: seq<ScoreEntry>)
    requires k <= limit && IsTop(scores, limit, all)
    ensures IsTop(scores, k, all[..Min(k, |all|)])
  {
    var n := Min(k, |all|);
    assert all == all[..n] + all[n..];
    forall e, out | e in all[..n] && IsEntry(scores, out) && out !in all[..n] ensures RanksBefore(e, out) {
      if out in all {
        CutRanksBefore(all, n, e, out);
      }
    }
  }

  lemma TopIsPrefix(scores: map<string, nat>, k: nat, limit: nat, short: seq<ScoreEntry>, long: seq<ScoreEntry>)
    requires k <= limit && IsTop(scores, k, short) && IsTop(scores, limit, long)
    ensures short <= long
  {
    CutOfTop(scores, k, limit, long);
    TopUnique(scores, k, short, long[..Min(k, |long|)]);
  }

  /** Insertion into a ranked list. */
  function Insert(e: ScoreEntry, s: seq<ScoreEntry>): (r: seq<ScoreEntry>)
    ensures |r| == |s| + 1
    ensures forall x :: x in r <==> x == e || x in s
  {
    if s == [] || RanksBefore(e, s[0]) then [e] + s
    else
      assert forall x :: x in s <==> x == s[0] || x in s[1..];
      [s[0]] + Insert(e, s[1..])
  }

  lemma {:induction false} InsertAscends(e: ScoreEntry, s: seq<ScoreEntry>)
    requires Ascending(RanksBefore, s) && forall x | x in s :: x.playerId != e.playerId
    ensures Ascending(RanksBefore, Insert(e, s))
  {
    if s == [] {
    } else if RanksBefore(e, s[0]) {
      forall i | 0 <= i < |s| ensures RanksBefore(e, s[i]) {
        if i > 0 {
          RanksTransitive(e, s[0], s[i]);
        }
      }
    } else {
      RanksTotal(e, s[0]);
      InsertAscends(e, s[1..]);
      forall x | x in Insert(e, s[1..]) ensures RanksBefore(s[0], x) {
        if x != e {
          var i :| 0 <= i < |s[1..]| && s[1..][i] == x;
          assert s[i + 1] == x;
        }
      }
    }
  }
}
