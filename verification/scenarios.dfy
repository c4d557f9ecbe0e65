/**
 Worked examples of the whole command after the fetches: small record lists
 whose table rows are computed exactly.
 */
module Scenarios {
  import opened Records
  import opened Merge
  import opened Ranking
  import opened Aggregate
  import opened Rows
  import opened Command

  /** A comment record as the provider returns it. */
  function Comment(id: nat, login: string): ApiRecord {
    ApiRecord(None, 0, Some(Account(id, login)))
  }

  /** A contributor statistic as the provider returns it. */
  function Contribution(id: nat, login: string, total: int): ApiRecord {
    ApiRecord(Some(Account(id, login)), total, None)
  }

  lemma TallyOfTwo(r1: ApiRecord, r2: ApiRecord)
    ensures Tally([r1, r2]) == Step(Step(map[], r1), r2)
  {
    assert [r1] == [] + [r1];
    assert [r1, r2] == [r1] + [r2];
    TallySnoc([], r1);
    TallySnoc([r1], r2);
  }

  lemma TallyOfFour(r1: ApiRecord, r2: ApiRecord, r3: ApiRecord, r4: ApiRecord)
    ensures Tally([r1, r2, r3, r4]) == Step(Step(Step(Step(map[], r1), r2), r3), r4)
  {
    TallyOfTwo(r1, r2);
    assert [r1, r2, r3] == [r1, r2] + [r3];
    assert [r1, r2, r3, r4] == [r1, r2, r3] + [r4];
    TallySnoc([r1, r2], r3);
    TallySnoc([r1, r2, r3], r4);
  }

  /** The merged map of the two-user scenario, one fold step at a time. */
  lemma TwoUsersTally(a: string, b: string, total: int)
    ensures Tally([Contribution(1, a, total), Comment(1, a), Comment(1, a), Comment(2, b)])
            == map[1 := UserStat(1, a, 2, total), 2 := UserStat(2, b, 1, 0)]
  {
    var m1 := Step(map[], Contribution(1, a, total));
    assert m1 == map[1 := UserStat(1, a, 0, total)];
    var m2 := Step(m1, Comment(1, a));
    assert m2 == map[1 := UserStat(1, a, 1, total)];
    var m3 := Step(m2, Comment(1, a));
    assert m3 == map[1 := UserStat(1, a, 2, total)];
    var m4 := Step(m3, Comment(2, b));
    assert m4 == map[1 := UserStat(1, a, 2, total), 2 := UserStat(2, b, 1, 0)];
    TallyOfFour(Contribution(1, a, total), Comment(1, a), Comment(1, a), Comment(2, b));
  }

  lemma TwoUsersValues(u1: UserStat, u2: UserStat)
    requires u1.id == 1 && u2.id == 2
    ensures ObjectValues(map[1 := u1, 2 := u2]) == [u1, u2]
  {
    var m := map[1 := u1, 2 := u2];
    assert m.Keys == {1, 2};
    assert Least({1, 2}) == 1;
    assert {1, 2} - {1} == {2};
    assert Least({2}) == 2;
    assert {2} - {2} == {};
    assert AscendingKeys({1, 2}) == [1, 2];
  }

  lemma TwoUsersOrder(u1: UserStat, u2: UserStat)
    requires u1.commentsCount > u2.commentsCount
    ensures OrderBy([u1, u2]) == [u1, u2]
  {
    assert [u1, u2][1..] == [u2];
    assert [u2][1..] == [];
    assert OrderBy([u2]) == [u2];
    assert Insert(u1, [u2]) == [u1, u2];
  }

  lemma TwoUsersAggregate(a: string, b: string, total: int)
    ensures AggregateData([Comment(1, a), Comment(1, a), Comment(2, b)], [Contribution(1, a, total)])
            == [UserStat(1, a, 2, total), UserStat(2, b, 1, 0)]
  {
    var recs := Concatenated([Comment(1, a), Comment(1, a), Comment(2, b)], [Contribution(1, a, total)]);
    assert recs == [Contribution(1, a, total), Comment(1, a), Comment(1, a), Comment(2, b)];
    TwoUsersTally(a, b, total);
    TwoUsersValues(UserStat(1, a, 2, total), UserStat(2, b, 1, 0));
    TwoUsersOrder(UserStat(1, a, 2, total), UserStat(2, b, 1, 0));
  }

  lemma TwoUsersRows(u1: UserStat, u2: UserStat)
    ensures ToRows([u1, u2]) == [ToRow(u1), ToRow(u2)]
  {
    assert [u1, u2][1..] == [u2];
    assert [u2][1..] == [];
  }

  /**
   Two comments and one statistic by user 1, one comment by user 2: user 1
   ranks first with 2 comments and its total, user 2 second with 1 comment
   and 0 commits.
   */
  lemma TwoUsersScenario(a: string, b: string, total: int)
    ensures GrabStatistic([Comment(1, a), Comment(1, a), Comment(2, b)], [Contribution(1, a, total)])
            == [[Num(1), Text(a), Num(2), Num(total)], [Num(2), Text(b), Num(1), Num(0)]]
  {
    TwoUsersAggregate(a, b, total);
    TwoUsersRows(UserStat(1, a, 2, total), UserStat(2, b, 1, 0));
  }

  lemma OneUserValues(u: UserStat)
    ensures ObjectValues(map[u.id := u]) == [u]
    ensures OrderBy([u]) == [u]
  {
    assert map[u.id := u].Keys == {u.id};
    assert Least({u.id}) == u.id;
    assert {u.id} - {u.id} == {};
    assert AscendingKeys({u.id}) == [u.id];
    assert [u][1..] == [];
  }

  lemma LoginConflictCallSite(id: nat, before: string, after: string, total: int)
    ensures AggregateData([Comment(id, before)], [Contribution(id, after, total)])
            == [UserStat(id, after, 1, total)]
  {
    assert Concatenated([Comment(id, before)], [Contribution(id, after, total)])
        == [Contribution(id, after, total), Comment(id, before)];
    var m1 := Step(map[], Contribution(id, after, total));
    assert m1 == map[id := UserStat(id, after, 0, total)];
    assert Step(m1, Comment(id, before)) == map[id := UserStat(id, after, 1, total)];
    TallyOfTwo(Contribution(id, after, total), Comment(id, before));
    OneUserValues(UserStat(id, after, 1, total));
  }

  lemma LoginConflictDeclaredOrder(id: nat, before: string, after: string, total: int)
    ensures AggregateData([Contribution(id, after, total)], [Comment(id, before)])
            == [UserStat(id, before, 1, total)]
  {
    assert Concatenated([Contribution(id, after, total)], [Comment(id, before)])
        == [Comment(id, before), Contribution(id, after, total)];
    var m1 := Step(map[], Comment(id, before));
    assert m1 == map[id := UserStat(id, before, 1, 0)];
    assert Step(m1, Contribution(id, after, total)) == map[id := UserStat(id, before, 1, total)];
    TallyOfTwo(Comment(id, before), Contribution(id, after, total));
    OneUserValues(UserStat(id, before, 1, total));
  }

  /**
   When a user's comment and statistic carry different logins, this call
   site shows the statistic's login; the concatenation order the parameter
   names describe would show the comment's.
   */
  lemma LoginConflictScenario(id: nat, before: string, after: string, total: int)
    ensures GrabStatistic([Comment(id, before)], [Contribution(id, after, total)])
            == [[Num(id), Text(after), Num(1), Num(total)]]
    ensures AggregateData([Contribution(id, after, total)], [Comment(id, before)])
            == [UserStat(id, before, 1, total)]
  {
    LoginConflictCallSite(id, before, after, total);
    LoginConflictDeclaredOrder(id, before, after, total);
    assert [UserStat(id, after, 1, total)][1..] == [];
  }
}
