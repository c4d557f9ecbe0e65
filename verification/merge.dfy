/**
 The merge pass of `aggregateData`: a left fold over the concatenated records
 into a map from user id to `UserStat`, and an independent reference
 description of what that map holds for each id.
 */
module Merge {
  import opened Records

  /** Every entry is stored under its own id. */
  predicate KeyedById(m: map<nat, UserStat>) {
    forall k :: k in m ==> m[k].id == k
  }

  /** `m[k]` as an optional value. */
  function Lookup(m: map<nat, UserStat>, k: nat): Option<UserStat> {
    if k in m then Some(m[k]) else None
  }

  /**
   `createUserIfNotExist`: an existing entry is left as it is; a new id gets
   zero counts and the login of the account that introduced it.
   */
  function CreateUserIfNotExist(acc: map<nat, UserStat>, a: Account): (res: map<nat, UserStat>)
    ensures res.Keys == acc.Keys + {a.id}
    ensures forall k :: k in acc ==> res[k] == acc[k]
    ensures a.id !in acc ==> res[a.id] == UserStat(a.id, a.login, 0, 0)
  {
    if a.id !in acc then acc[a.id := UserStat(a.id, a.login, 0, 0)] else acc
  }

  /**
   One step of the fold. A record with an author sets that user's commit
   count to its `total`; otherwise a record with a user adds one comment;
   a record with neither is skipped.
   */
  function Step(acc: map<nat, UserStat>, r: ApiRecord): (res: map<nat, UserStat>)
    ensures Subject(r).None? ==> res == acc
    ensures Subject(r).Some? ==> res.Keys == acc.Keys + {Subject(r).value.id}
    ensures forall k :: k in acc ==> res[k].id == acc[k].id && res[k].userName == acc[k].userName
    ensures IsContribution(r) ==> forall k :: k in acc ==> res[k].commentsCount == acc[k].commentsCount
    ensures IsContribution(r) ==> res[r.author.value.id].commitsCount == r.total
    ensures IsContribution(r) ==>
              var a := r.author.value;
              a.id !in acc ==> res[a.id] == UserStat(a.id, a.login, 0, r.total)
    ensures IsComment(r) ==>
              var u := r.user.value;
              && res[u.id].commentsCount == (if u.id in acc then acc[u.id].commentsCount else 0) + 1
              && res[u.id].commitsCount == (if u.id in acc then acc[u.id].commitsCount else 0)
              && (u.id !in acc ==> res[u.id] == UserStat(u.id, u.login, 1, 0))
    ensures forall k :: k in acc && !MentionsId(r, k) ==> res[k] == acc[k]
    ensures KeyedById(acc) ==> KeyedById(res)
  {
    if r.author.Some? then
      var acc' := CreateUserIfNotExist(acc, r.author.value);
      var id := r.author.value.id;
      acc'[id := acc'[id].(commitsCount := r.total)]
    else if r.user.Some? then
      var acc' := CreateUserIfNotExist(acc, r.user.value);
      var id := r.user.value.id;
      acc'[id := acc'[id].(commentsCount := acc'[id].commentsCount + 1)]
    else
      acc
  }

  /** The `reduce` over `recs` starting from the empty object. */
  function Tally(recs: seq<ApiRecord>): (m: map<nat, UserStat>)
    ensures KeyedById(m)
  {
    if |recs| == 0 then map[]
    else Step(Tally(recs[..|recs| - 1]), recs[|recs| - 1])
  }

  /** Appending a record performs one more fold step. */
  lemma TallySnoc(p: seq<ApiRecord>, r: ApiRecord)
    ensures Tally(p + [r]) == Step(Tally(p), r)
  {
    assert (p + [r])[..|p|] == p;
  }

  // ---------------------------------------------------------------------------
  // Reference description, written without the fold.
  // ---------------------------------------------------------------------------

  /** Position of the first record counted for `id`. */
  function FirstMention(recs: seq<ApiRecord>, id: nat): (r: Option<nat>)
    ensures r.Some? ==> r.value < |recs| && MentionsId(recs[r.value], id)
    ensures r.Some? ==> forall j :: 0 <= j < r.value ==> !MentionsId(recs[j], id)
    ensures r.None? ==> forall j :: 0 <= j < |recs| ==> !MentionsId(recs[j], id)
  {
    if |recs| == 0 then None
    else if MentionsId(recs[0], id) then Some(0)
    else
      match FirstMention(recs[1..], id)
      case None => None
      case Some(i) => Some(i + 1)
  }

  /** Position of the last contributor statistic for `id`. */
  function LastContribution(recs: seq<ApiRecord>, id: nat): (r: Option<nat>)
    ensures r.Some? ==> r.value < |recs| && ContributionFor(recs[r.value], id)
    ensures r.Some? ==> forall j :: r.value < j < |recs| ==> !ContributionFor(recs[j], id)
    ensures r.None? ==> forall j :: 0 <= j < |recs| ==> !ContributionFor(recs[j], id)
  {
    if |recs| == 0 then None
    else
      match LastContribution(recs[1..], id)
      case Some(i) => Some(i + 1)
      case None => if ContributionFor(recs[0], id) then Some(0) else None
  }

  /** Number of comments by `id`. */
  function CommentsBy(recs: seq<ApiRecord>, id: nat): nat {
    if |recs| == 0 then 0
    else (if CommentFor(recs[0], id) then 1 else 0) + CommentsBy(recs[1..], id)
  }

  /**
   What the merged map should hold for `id`: nothing if no record is counted
   for it; otherwise the login of the first such record, the number of
   comments by it, and the `total` of its last contributor statistic (0 if
   it has none).
   */
  function Expected(recs: seq<ApiRecord>, id: nat): Option<UserStat> {
    match FirstMention(recs, id)
    case None => None
    case Some(i) =>
      var commits := match LastContribution(recs, id)
        case None => 0
        case Some(j) => recs[j].total;
      Some(UserStat(id, Subject(recs[i]).value.login, CommentsBy(recs, id), commits))
  }

  // ---------------------------------------------------------------------------
  // How the reference functions split over a concatenation.
  // ---------------------------------------------------------------------------

  lemma FirstMentionConcat(a: seq<ApiRecord>, b: seq<ApiRecord>, id: nat)
    ensures FirstMention(a + b, id) ==
              match FirstMention(a, id)
              case Some(i) => Some(i)
              case None =>
                match FirstMention(b, id)
                case None => None
                case Some(i) => Some(|a| + i)
  {
    var ab := a + b;
    assert forall j :: 0 <= j < |a| ==> ab[j] == a[j];
    assert forall j :: 0 <= j < |b| ==> ab[|a| + j] == b[j];
  }

  lemma LastContributionConcat(a: seq<ApiRecord>, b: seq<ApiRecord>, id: nat)
    ensures LastContribution(a + b, id) ==
              match LastContribution(b, id)
              case Some(i) => Some(|a| + i)
              case None => LastContribution(a, id)
  {
    var ab := a + b;
    assert forall j :: 0 <= j < |a| ==> ab[j] == a[j];
    assert forall j :: 0 <= j < |b| ==> ab[|a| + j] == b[j];
  }

  lemma {:induction false} CommentsByConcat(a: seq<ApiRecord>, b: seq<ApiRecord>, id: nat)
    ensures CommentsBy(a + b, id) == CommentsBy(a, id) + CommentsBy(b, id)
    decreases |a|
  {
    if |a| > 0 {
      assert (a + b)[0] == a[0];
      assert (a + b)[1..] == a[1..] + b;
      CommentsByConcat(a[1..], b, id);
    } else {
      assert a + b == b;
    }
  }

  /** A user nobody's record is counted for has no comments. */
  lemma {:induction false} UnmentionedHasNoComments(recs: seq<ApiRecord>, id: nat)
    requires forall j :: 0 <= j < |recs| ==> !MentionsId(recs[j], id)
    ensures CommentsBy(recs, id) == 0
    decreases |recs|
  {
    if |recs| > 0 {
      KindsMentionTheirId(recs[0], id);
      UnmentionedHasNoComments(recs[1..], id);
    }
  }

  // ---------------------------------------------------------------------------
  // The fold computes the reference description.
  // ---------------------------------------------------------------------------

  /**
   One fold step keeps the map in agreement with the reference description:
   if `acc` holds what `p` should produce for `id`, then `Step(acc, r)` holds
   what `p + [r]` should produce.
   */
  lemma StepMatchesExpected(acc: map<nat, UserStat>, p: seq<ApiRecord>, r: ApiRecord, id: nat)
    requires Lookup(acc, id) == Expected(p, id)
    ensures Lookup(Step(acc, r), id) == Expected(p + [r], id)
  {
    FirstMentionConcat(p, [r], id);
    LastContributionConcat(p, [r], id);
    CommentsByConcat(p, [r], id);
    assert [r][1..] == [];
    KindsMentionTheirId(r, id);
    if FirstMention(p, id).None? {
      UnmentionedHasNoComments(p, id);
    }
  }

  /**
   The merged map holds, for every id, exactly the reference description:
   an entry exists iff some record is counted for the id, and that entry
   carries the first login, the comment count and the last total.
   */
  lemma {:induction false} TallyMatchesExpected(recs: seq<ApiRecord>)
    ensures forall id: nat :: Lookup(Tally(recs), id) == Expected(recs, id)
    decreases |recs|
  {
    if |recs| > 0 {
      var p := recs[..|recs| - 1];
      var r := recs[|recs| - 1];
      assert recs == p + [r];
      TallyMatchesExpected(p);
      forall id: nat
        ensures Lookup(Tally(recs), id) == Expected(recs, id)
      {
        StepMatchesExpected(Tally(p), p, r, id);
      }
    }
  }
}
