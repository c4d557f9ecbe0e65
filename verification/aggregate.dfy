/**
 `aggregateData`: merge the two fetched lists into one ranked list of
 per-user statistics.
 */
module Aggregate {
  import opened Records
  import opened Merge
  import opened Ranking

  /**
   The records in the order the merge visits them. The parameters keep their
   declared order `(usersWithCommits, usersWithComments)`, and the second one
   is spread first.
   */
  function Concatenated(usersWithCommits: seq<ApiRecord>, usersWithComments: seq<ApiRecord>): (recs: seq<ApiRecord>)
    ensures |recs| == |usersWithComments| + |usersWithCommits|
    ensures forall i :: 0 <= i < |usersWithComments| ==> recs[i] == usersWithComments[i]
    ensures forall i :: 0 <= i < |usersWithCommits| ==> recs[|usersWithComments| + i] == usersWithCommits[i]
  {
    usersWithComments + usersWithCommits
  }

  /**
   Object.values followed by orderBy, applied to the merged map of `recs`:
   every entry is the reference description of its id (first login, number
   of comments, last total); every id some record is counted for appears,
   and appears once; the list is ordered by comments then commits,
   descending, and entries equal on both come in ascending id order.
   */
  lemma RankedMerge(recs: seq<ApiRecord>)
    ensures forall i :: 0 <= i < |OrderBy(ObjectValues(Tally(recs)))| ==>
              var out := OrderBy(ObjectValues(Tally(recs)));
              Expected(recs, out[i].id) == Some(out[i])
    ensures forall id: nat :: Expected(recs, id).Some? ==>
              exists i :: 0 <= i < |OrderBy(ObjectValues(Tally(recs)))|
                          && OrderBy(ObjectValues(Tally(recs)))[i].id == id
    ensures forall i, j :: 0 <= i < j < |OrderBy(ObjectValues(Tally(recs)))| ==>
              var out := OrderBy(ObjectValues(Tally(recs)));
              out[i].id != out[j].id
    ensures StrictlyRanked(OrderBy(ObjectValues(Tally(recs))))
  {
    var m := Tally(recs);
    var vs := ObjectValues(m);
    var out := OrderBy(vs);
    TallyMatchesExpected(recs);
    OrderByBreaksTiesById(vs);
    StrictlyRankedOrdersAll(out);
    forall i | 0 <= i < |out|
      ensures Expected(recs, out[i].id) == Some(out[i])
    {
      assert out[i] in multiset(out);
      assert out[i] in vs;
      var k :| k in m && m[k] == out[i];
      assert Lookup(m, k) == Expected(recs, k);
    }
    forall id: nat | Expected(recs, id).Some?
      ensures exists i :: 0 <= i < |out| && out[i].id == id
    {
      assert Lookup(m, id) == Expected(recs, id);
      assert m[id] in vs;
      assert m[id] in multiset(out);
      var i :| 0 <= i < |out| && out[i] == m[id];
    }
    forall i, j | 0 <= i < j < |out|
      ensures out[i].id != out[j].id
    {
      assert Precedes(out[i], out[j]);
    }
  }

  /**
   `aggregateData(usersWithCommits, usersWithComments)`: one entry per user
   some record is counted for, holding that user's first login, number of
   comments and last total over the concatenated records, ranked by
   comments then commits, descending, remaining ties by ascending id.
   */
  function AggregateData(usersWithCommits: seq<ApiRecord>, usersWithComments: seq<ApiRecord>): (out: seq<UserStat>)
    ensures forall i :: 0 <= i < |out| ==>
              Expected(Concatenated(usersWithCommits, usersWithComments), out[i].id) == Some(out[i])
    ensures forall id: nat :: Expected(Concatenated(usersWithCommits, usersWithComments), id).Some? ==>
              exists i :: 0 <= i < |out| && out[i].id == id
    ensures forall i, j :: 0 <= i < j < |out| ==> out[i].id != out[j].id
    ensures StrictlyRanked(out)
  {
    var recs := Concatenated(usersWithCommits, usersWithComments);
    RankedMerge(recs);
    OrderBy(ObjectValues(Tally(recs)))
  }

  /**
   The reference description over either concatenation order: the same ids
   are mentioned, with the same comment and commit counts, provided the list
   of comments holds no contributor statistic.
   */
  lemma ExpectedCountsIgnoreOrder(comments: seq<ApiRecord>, contributors: seq<ApiRecord>, id: nat)
    requires forall j :: 0 <= j < |comments| ==> !IsContribution(comments[j])
    ensures Expected(comments + contributors, id).Some? <==> Expected(contributors + comments, id).Some?
    ensures Expected(comments + contributors, id).Some? ==>
              && Expected(comments + contributors, id).value.commentsCount == Expected(contributors + comments, id).value.commentsCount
              && Expected(comments + contributors, id).value.commitsCount == Expected(contributors + comments, id).value.commitsCount
  {
    var ab := comments + contributors;
    var ba := contributors + comments;
    FirstMentionConcat(comments, contributors, id);
    FirstMentionConcat(contributors, comments, id);
    LastContributionConcat(comments, contributors, id);
    LastContributionConcat(contributors, comments, id);
    CommentsByConcat(comments, contributors, id);
    CommentsByConcat(contributors, comments, id);
    assert LastContribution(comments, id).None?;
    match LastContribution(contributors, id)
    case None =>
    case Some(i) =>
      assert ab[|comments| + i] == ba[i];
  }

  /**
   The counts do not depend on which list is spread first, provided the list
   of comments holds no contributor statistic: the same ids get entries, with
   the same comment and commit counts. Only `userName` can differ.
   */
  lemma CountsIgnoreListOrder(comments: seq<ApiRecord>, contributors: seq<ApiRecord>, id: nat)
    requires forall j :: 0 <= j < |comments| ==> !IsContribution(comments[j])
    ensures id in Tally(comments + contributors) <==> id in Tally(contributors + comments)
    ensures id in Tally(comments + contributors) ==>
              && Tally(comments + contributors)[id].commentsCount == Tally(contributors + comments)[id].commentsCount
              && Tally(comments + contributors)[id].commitsCount == Tally(contributors + comments)[id].commitsCount
  {
    TallyMatchesExpected(comments + contributors);
    TallyMatchesExpected(contributors + comments);
    assert Lookup(Tally(comments + contributors), id) == Expected(comments + contributors, id);
    assert Lookup(Tally(contributors + comments), id) == Expected(contributors + comments, id);
    ExpectedCountsIgnoreOrder(comments, contributors, id);
  }
}
