/**
 * The rank table and the score-to-rank classifier of the social-credit bot
 * (bot.py:45-53 and bot.py:92-96).
 *
 * The table is a parameter so that any well-formed table can be classified
 * against; `SocialRanks` is the bot's own table.
 */
module Ranks {
  import opened Wrappers

  /** A rank threshold: the floor entry's minus infinity, or a whole number of credits. */
  datatype Threshold = NegInf | At(credits: int)

  /** `score >= threshold`, the test the rank search applies to each entry. */
  predicate Reaches(score: int, t: Threshold)
  {
    match t
    case NegInf => true
    case At(c) => c <= score
  }

  /** Strict order on thresholds, minus infinity below every whole number. */
  predicate Below(a: Threshold, b: Threshold)
  {
    match (a, b)
    case (NegInf, At(_)) => true
    case (At(x), At(y)) => x < y
    case _ => false
  }

  /** One row of the table: (credits, display name, icon, role name on the server). */
  datatype Rank = Rank(threshold: Threshold, name: string, icon: string, role: string)

  /** What the classifier hands back: the display text, the display name and the role name. */
  datatype RankInfo = RankInfo(text: string, name: string, role: string)

  /** The bot's rank table, lowest rank first. */
  const SocialRanks: seq<Rank> := [
    Rank(NegInf, "Social Outcast", "\U{1F6AB}", "Social Outcast"),
    Rank(At(0), "Suspicious Citizen", "\U{2753}", "Suspicious Citizen"),
    Rank(At(500), "Ordinary Citizen", "\U{1F464}", "Ordinary Citizen"),
    Rank(At(1500), "Model Citizen", "\U{1F31F}", "Model Citizen"),
    Rank(At(3000), "Pride of the Party", "\U{1F1E8}\U{1F1F3}", "Pride of the Party"),
    Rank(At(5000), "Great Helmsman", "\U{1F451}", "Great Helmsman")
  ]

  /**
   * A usable table: not empty, a minus-infinity floor first, and thresholds
   * strictly increasing from there on.
   */
  predicate WellFormed(table: seq<Rank>)
  {
    && |table| > 0
    && table[0].threshold == NegInf
    && forall i, j :: 0 <= i < j < |table| ==> Below(table[i].threshold, table[j].threshold)
  }

  /** Entry `i` is the rank of `score`: the last entry whose threshold the score reaches. */
  predicate IsRankOf(table: seq<Rank>, score: int, i: int)
  {
    && 0 <= i < |table|
    && Reaches(score, table[i].threshold)
    && forall j :: i < j < |table| ==> !Reaches(score, table[j].threshold)
  }

  lemma SocialRanksWellFormed()
    ensures WellFormed(SocialRanks)
  {
  }

  /**
   * The search over the reversed table: looks at entries k-1, k-2, ..., 0
   * and stops at the first one whose threshold the score reaches.
   */
  function SearchDown(table: seq<Rank>, score: int, k: nat): (r: Option<nat>)
    requires k <= |table|
    ensures r.Some? ==> r.value < k && Reaches(score, table[r.value].threshold)
    ensures r.Some? ==> forall j :: r.value < j < k ==> !Reaches(score, table[j].threshold)
    ensures r.None? ==> forall j :: 0 <= j < k ==> !Reaches(score, table[j].threshold)
    decreases k
  {
    if k == 0 then None
    else if Reaches(score, table[k - 1].threshold) then Some(k - 1)
    else SearchDown(table, score, k - 1)
  }

  /**
   * The index of the rank of `score`; when the search finds nothing it falls
   * back to the first entry, which the floor makes unreachable.
   */
  function RankIndex(table: seq<Rank>, score: int): (i: nat)
    requires |table| > 0
    ensures i < |table|
    ensures table[0].threshold == NegInf ==> IsRankOf(table, score, i)
  {
    match SearchDown(table, score, |table|)
    case Some(i) => i
    case None => 0
  }

  /** The classifier: display text `icon + " " + name`, the name and the role name of the rank. */
  function Classify(table: seq<Rank>, score: int): (r: RankInfo)
    requires |table| > 0
    ensures table[0].threshold == NegInf ==>
      exists i :: IsRankOf(table, score, i) && r.name == table[i].name && r.role == table[i].role
               && r.text == table[i].icon + " " + table[i].name
  {
    var rank := table[RankIndex(table, score)];
    RankInfo(rank.icon + " " + rank.name, rank.name, rank.role)
  }

  /** With a minus-infinity floor the search always succeeds, so the fallback is never taken. */
  lemma FallbackUnreachable(table: seq<Rank>, score: int)
    requires |table| > 0 && table[0].threshold == NegInf
    ensures SearchDown(table, score, |table|).Some?
  {
    assert Reaches(score, table[0].threshold);
  }

  /** At most one entry is the rank of a score. */
  lemma RankUnique(table: seq<Rank>, score: int, i: int, k: int)
    requires IsRankOf(table, score, i) && IsRankOf(table, score, k)
    ensures i == k
  {
  }

  /** A higher score never gets a lower rank. */
  lemma RankMonotone(table: seq<Rank>, s1: int, s2: int)
    requires |table| > 0 && table[0].threshold == NegInf
    requires s1 <= s2
    ensures RankIndex(table, s1) <= RankIndex(table, s2)
  {
    var i1 := RankIndex(table, s1);
    assert Reaches(s2, table[i1].threshold);
  }

  /**
   * In a well-formed table entry `i` is the rank of `score` exactly when the
   * score reaches its threshold and not the next one.
   */
  lemma RankInterval(table: seq<Rank>, score: int, i: int)
    requires WellFormed(table)
    requires 0 <= i < |table|
    ensures RankIndex(table, score) == i <==>
      Reaches(score, table[i].threshold)
      && (i + 1 == |table| || !Reaches(score, table[i + 1].threshold))
  {
    var k := RankIndex(table, score);
    if Reaches(score, table[i].threshold) && (i + 1 == |table| || !Reaches(score, table[i + 1].threshold)) {
      forall j | i < j < |table|
        ensures !Reaches(score, table[j].threshold)
      {
        if j > i + 1 {
          assert Below(table[i + 1].threshold, table[j].threshold);
        }
      }
      RankUnique(table, score, i, k);
    }
  }

  /** The ranks the bot hands out at sample scores, including the default 1000. */
  lemma SocialRanksExamples()
    ensures Classify(SocialRanks, -1000000).name == "Social Outcast"
    ensures Classify(SocialRanks, -1).name == "Social Outcast"
    ensures Classify(SocialRanks, 0).name == "Suspicious Citizen"
    ensures Classify(SocialRanks, 499).name == "Suspicious Citizen"
    ensures Classify(SocialRanks, 1000).name == "Ordinary Citizen"
    ensures Classify(SocialRanks, 1500).name == "Model Citizen"
    ensures Classify(SocialRanks, 4999).name == "Pride of the Party"
    ensures Classify(SocialRanks, 5000).name == "Great Helmsman"
    ensures Classify(SocialRanks, 1000).text == "\U{1F464} Ordinary Citizen"
  {
    SocialRanksWellFormed();
    RankInterval(SocialRanks, -1000000, 0);
    RankInterval(SocialRanks, -1, 0);
    RankInterval(SocialRanks, 0, 1);
    RankInterval(SocialRanks, 499, 1);
    RankInterval(SocialRanks, 1000, 2);
    RankInterval(SocialRanks, 1500, 3);
    RankInterval(SocialRanks, 4999, 4);
    RankInterval(SocialRanks, 5000, 5);
  }
}
