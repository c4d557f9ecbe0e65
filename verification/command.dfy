/**
 The statistics command after both fetches have returned: the merge call
 and the projection of its result into table rows.
 */
module Command {
  import opened Records
  import opened Merge
  import opened Ranking
  import opened Aggregate
  import opened Rows

  /** Each row reads back as the entry it was projected from. */
  lemma RowsShowEntries(out: seq<UserStat>, recs: seq<ApiRecord>)
    requires forall i :: 0 <= i < |out| ==> Expected(recs, out[i].id) == Some(out[i])
    ensures forall n :: 0 <= n < |ToRows(out)| ==>
              FromRow(ToRows(out)[n]).Some?
              && Expected(recs, FromRow(ToRows(out)[n]).value.id) == FromRow(ToRows(out)[n])
  {
  }

  /** Rows of a strictly ranked list without repeated ids keep both properties. */
  lemma RowsKeepRanking(out: seq<UserStat>)
    requires StrictlyRanked(out)
    requires forall i, j :: 0 <= i < j < |out| ==> out[i].id != out[j].id
    ensures forall n, n' :: 0 <= n < n' < |ToRows(out)| ==>
              FromRow(ToRows(out)[n]).Some? && FromRow(ToRows(out)[n']).Some?
              && Precedes(FromRow(ToRows(out)[n]).value, FromRow(ToRows(out)[n']).value)
    ensures forall n, n' :: 0 <= n < n' < |ToRows(out)| ==>
              FromRow(ToRows(out)[n]).Some? && FromRow(ToRows(out)[n']).Some?
              && FromRow(ToRows(out)[n]).value.id != FromRow(ToRows(out)[n']).value.id
  {
    var rows := ToRows(out);
    StrictlyRankedOrdersAll(out);
    forall n, n' | 0 <= n < n' < |rows|
      ensures FromRow(rows[n]).Some? && FromRow(rows[n']).Some?
      ensures Precedes(FromRow(rows[n]).value, FromRow(rows[n']).value)
      ensures FromRow(rows[n]).value.id != FromRow(rows[n']).value.id
    {
      assert FromRow(rows[n]) == Some(out[n]) && FromRow(rows[n']) == Some(out[n']);
      assert Precedes(out[n], out[n']);
    }
  }

  /** An id that has an entry has a row. */
  lemma RowsCoverEntry(out: seq<UserStat>, id: nat)
    requires exists i :: 0 <= i < |out| && out[i].id == id
    ensures exists n :: 0 <= n < |ToRows(out)| && FromRow(ToRows(out)[n]).Some? && FromRow(ToRows(out)[n]).value.id == id
  {
    var rows := ToRows(out);
    var n :| 0 <= n < |out| && out[n].id == id;
    assert FromRow(rows[n]) == Some(out[n]);
  }

  /**
   The rows the command pushes into the table. The fetched lists are passed
   to `aggregateData` in the order `(usersWithComments, usersWithCommits)`,
   the reverse of its declared parameters, so the contributor statistics are
   the ones spread first: each row shows the reference description of its
   user over `usersWithCommits + usersWithComments`, every user some record
   is counted for has exactly one row, and the rows are ranked by comments
   then commits, descending, remaining ties by ascending id.
   */
  function GrabStatistic(usersWithComments: seq<ApiRecord>, usersWithCommits: seq<ApiRecord>): (rows: seq<Row>)
    ensures forall n :: 0 <= n < |rows| ==>
              FromRow(rows[n]).Some?
              && Expected(usersWithCommits + usersWithComments, FromRow(rows[n]).value.id) == FromRow(rows[n])
    ensures forall id: nat :: Expected(usersWithCommits + usersWithComments, id).Some? ==>
              exists n :: 0 <= n < |rows| && FromRow(rows[n]).Some? && FromRow(rows[n]).value.id == id
    ensures forall n, n' :: 0 <= n < n' < |rows| ==>
              FromRow(rows[n]).Some? && FromRow(rows[n']).Some?
              && Precedes(FromRow(rows[n]).value, FromRow(rows[n']).value)
    ensures forall n, n' :: 0 <= n < n' < |rows| ==>
              FromRow(rows[n]).Some? && FromRow(rows[n']).Some?
              && FromRow(rows[n]).value.id != FromRow(rows[n']).value.id
  {
    var out := AggregateData(usersWithComments, usersWithCommits);
    assert Concatenated(usersWithComments, usersWithCommits) == usersWithCommits + usersWithComments;
    RowsShowEntries(out, usersWithCommits + usersWithComments);
    RowsKeepRanking(out);
    forall id: nat | Expected(usersWithCommits + usersWithComments, id).Some? {
      RowsCoverEntry(out, id);
    }
    ToRows(out)
  }

  /**
   At this call site the contributor statistics are visited first, so a user
   who has one is shown with the login of their first statistic, whatever
   logins their comments carry.
   */
  lemma CallSiteTakesLoginFromContributors(usersWithComments: seq<ApiRecord>, usersWithCommits: seq<ApiRecord>, i: nat)
    requires i < |usersWithCommits| && IsContribution(usersWithCommits[i])
    requires forall j :: 0 <= j < i ==> !MentionsId(usersWithCommits[j], usersWithCommits[i].author.value.id)
    ensures var a := usersWithCommits[i].author.value;
            && Expected(usersWithCommits + usersWithComments, a.id).Some?
            && Expected(usersWithCommits + usersWithComments, a.id).value.userName == a.login
  {
    var recs := usersWithCommits + usersWithComments;
    var a := usersWithCommits[i].author.value;
    FirstMentionConcat(usersWithCommits, usersWithComments, a.id);
    assert FirstMention(usersWithCommits, a.id) == Some(i);
    assert recs[i] == usersWithCommits[i];
  }
}
