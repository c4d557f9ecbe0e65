/**
 Turning the merged map into the ranked list: `Object.values` (integer keys
 come out in ascending numeric order) followed by lodash `orderBy` on
 `commentsCount` then `commitsCount`, both descending. `orderBy` is a stable
 sort, modelled here as an insertion sort that never moves an element past
 one with equal sort keys.
 */
module Ranking {
  import opened Records
  import opened Merge

  // ---------------------------------------------------------------------------
  // Object.values
  // ---------------------------------------------------------------------------

  predicate StrictlyIncreasing(ks: seq<nat>) {
    forall i, j :: 0 <= i < j < |ks| ==> ks[i] < ks[j]
  }

  predicate IdsAscending(s: seq<UserStat>) {
    forall i, j :: 0 <= i < j < |s| ==> s[i].id < s[j].id
  }

  /** `k` is a member of `ids` no larger than any other. */
  predicate IsLeast(k: nat, ids: set<nat>) {
    k in ids && forall j :: j in ids ==> k <= j
  }

  /** A non-empty set of ids has a least element: remove one element and compare. */
  lemma {:induction false} LeastExists(ids: set<nat>)
    requires ids != {}
    ensures exists k :: IsLeast(k, ids)
    decreases |ids|
  {
    var x :| x in ids;
    var rest := ids - {x};
    if rest == {} {
      forall j | j in ids
        ensures x <= j
      {
        assert j !in rest;
      }
      assert IsLeast(x, ids);
    } else {
      LeastExists(rest);
      var k :| IsLeast(k, rest);
      var m := if x < k then x else k;
      forall j | j in ids
        ensures m <= j
      {
        if j != x {
          assert j in rest;
        }
      }
      assert IsLeast(m, ids);
    }
  }

  /** The least element of a non-empty set of ids. */
  function Least(ids: set<nat>): (k: nat)
    requires ids != {}
    ensures k in ids
    ensures forall j :: j in ids ==> k <= j
  {
    LeastExists(ids);
    var k :| IsLeast(k, ids);
    k
  }

  /** The keys of an object with integer keys, in the order it enumerates them. */
  function AscendingKeys(ids: set<nat>): (ks: seq<nat>)
    ensures |ks| == |ids|
    ensures forall k :: k in ks <==> k in ids
    ensures StrictlyIncreasing(ks)
    decreases |ids|
  {
    if ids == {} then []
    else
      var k := Least(ids);
      assert |ids - {k}| == |ids| - 1;
      var rest := AscendingKeys(ids - {k});
      PrependLeast(k, rest);
      [k] + rest
  }

  /** A key below every key of an increasing sequence extends it at the front. */
  lemma PrependLeast(k: nat, rest: seq<nat>)
    requires StrictlyIncreasing(rest)
    requires forall j :: j in rest ==> k < j
    ensures StrictlyIncreasing([k] + rest)
  {
    var ks := [k] + rest;
    forall i, j | 0 <= i < j < |ks|
      ensures ks[i] < ks[j]
    {
      assert ks[j] == rest[j - 1];
      if i > 0 {
        assert ks[i] == rest[i - 1];
      } else {
        assert rest[j - 1] in rest;
      }
    }
  }

  /** The entries of `m` under the keys `ks`, in that order. */
  function ValuesAt(m: map<nat, UserStat>, ks: seq<nat>): (vs: seq<UserStat>)
    requires forall k :: k in ks ==> k in m
    ensures |vs| == |ks|
    ensures forall i :: 0 <= i < |ks| ==> vs[i] == m[ks[i]]
  {
    if |ks| == 0 then [] else [m[ks[0]]] + ValuesAt(m, ks[1..])
  }

  lemma ValuesAtCovers(m: map<nat, UserStat>, ks: seq<nat>)
    requires forall k :: k in ks ==> k in m
    ensures forall k :: k in ks ==> m[k] in ValuesAt(m, ks)
    ensures forall v :: v in ValuesAt(m, ks) ==> v in m.Values
  {
    var vs := ValuesAt(m, ks);
    forall k | k in ks
      ensures m[k] in vs
    {
      var i :| 0 <= i < |ks| && ks[i] == k;
      assert vs[i] == m[k];
    }
    forall v | v in vs
      ensures v in m.Values
    {
      var i :| 0 <= i < |vs| && vs[i] == v;
      assert ks[i] in m;
    }
  }

  lemma ValuesAtAscending(m: map<nat, UserStat>, ks: seq<nat>)
    requires forall k :: k in ks ==> k in m
    ensures KeyedById(m) && StrictlyIncreasing(ks) ==> IdsAscending(ValuesAt(m, ks))
  {
    var vs := ValuesAt(m, ks);
    if KeyedById(m) && StrictlyIncreasing(ks) {
      forall i, j | 0 <= i < j < |vs|
        ensures vs[i].id < vs[j].id
      {
        assert vs[i].id == ks[i] && vs[j].id == ks[j];
      }
    }
  }

  /** `Object.values(m)`: every entry once, in ascending key order. */
  function ObjectValues(m: map<nat, UserStat>): (vs: seq<UserStat>)
    ensures |vs| == |m|
    ensures forall k :: k in m ==> m[k] in vs
    ensures forall v :: v in vs ==> v in m.Values
    ensures KeyedById(m) ==> IdsAscending(vs)
  {
    var ks := AscendingKeys(m.Keys);
    assert |m.Keys| == |m|;
    ValuesAtCovers(m, ks);
    ValuesAtAscending(m, ks);
    ValuesAt(m, ks)
  }

  // ---------------------------------------------------------------------------
  // orderBy(['commentsCount', 'commitsCount'], ['desc', 'desc'])
  // ---------------------------------------------------------------------------

  /** `a` sorts strictly before `b` on the two keys. */
  predicate RanksAbove(a: UserStat, b: UserStat) {
    a.commentsCount > b.commentsCount
    || (a.commentsCount == b.commentsCount && a.commitsCount > b.commitsCount)
  }

  /** Consecutive entries are in descending (comments, commits) order. */
  predicate Ranked(s: seq<UserStat>) {
    forall i :: 0 < i < |s| ==> !RanksAbove(s[i], s[i - 1])
  }

  /** The ranking with ties on both keys broken by ascending id. */
  predicate Precedes(a: UserStat, b: UserStat) {
    RanksAbove(a, b)
    || (a.commentsCount == b.commentsCount && a.commitsCount == b.commitsCount && a.id < b.id)
  }

  predicate StrictlyRanked(s: seq<UserStat>) {
    forall i :: 0 < i < |s| ==> Precedes(s[i - 1], s[i])
  }

  /** Places `x` in front of the first entry that does not rank above it. */
  function Insert(x: UserStat, t: seq<UserStat>): (r: seq<UserStat>)
    ensures multiset(r) == multiset(t) + multiset{x}
    ensures |r| == |t| + 1
    ensures r[0] == x || (|t| > 0 && r[0] == t[0])
    ensures Ranked(t) ==> Ranked(r)
  {
    if |t| == 0 || !RanksAbove(t[0], x) then [x] + t
    else
      assert t == [t[0]] + t[1..];
      [t[0]] + Insert(x, t[1..])
  }

  /** The stable sort: earlier entries stay ahead of later ones with equal keys. */
  function OrderBy(s: seq<UserStat>): (r: seq<UserStat>)
    ensures multiset(r) == multiset(s)
    ensures Ranked(r)
  {
    if |s| == 0 then []
    else
      assert s == [s[0]] + s[1..];
      Insert(s[0], OrderBy(s[1..]))
  }

  lemma {:induction false} InsertKeepsStrictRanking(x: UserStat, t: seq<UserStat>)
    requires StrictlyRanked(t)
    requires forall y :: y in t ==> x.id < y.id
    ensures StrictlyRanked(Insert(x, t))
    decreases |t|
  {
    if |t| > 0 && RanksAbove(t[0], x) {
      InsertKeepsStrictRanking(x, t[1..]);
    }
  }

  /**
   Stability: when the entries arrive in ascending id order, entries that tie
   on both keys leave the sort in ascending id order.
   */
  lemma {:induction false} OrderByBreaksTiesById(s: seq<UserStat>)
    requires IdsAscending(s)
    ensures StrictlyRanked(OrderBy(s))
    decreases |s|
  {
    if |s| > 0 {
      var rest := OrderBy(s[1..]);
      OrderByBreaksTiesById(s[1..]);
      forall y | y in rest
        ensures s[0].id < y.id
      {
        assert y in multiset(rest);
        assert y in s[1..];
      }
      InsertKeepsStrictRanking(s[0], rest);
    }
  }

  /** Consecutive strict ranking extends to every pair. */
  lemma {:induction false} StrictlyRankedOrdersAll(s: seq<UserStat>)
    requires StrictlyRanked(s)
    ensures forall i, j :: 0 <= i < j < |s| ==> Precedes(s[i], s[j])
    decreases |s|
  {
    if |s| > 1 {
      var t := s[1..];
      StrictlyRankedOrdersAll(t);
      forall i, j | 0 <= i < j < |s|
        ensures Precedes(s[i], s[j])
      {
        if i > 0 {
          assert s[i] == t[i - 1] && s[j] == t[j - 1];
        } else if j > 1 {
          assert s[1] == t[0] && s[j] == t[j - 1];
        }
      }
    }
  }
}
