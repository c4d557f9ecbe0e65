/**
 The data the statistics command works on: the records the hosting provider
 returns for a repository, and the per-user statistic the command derives
 from them.
 */
module Records {

  /** A value that may be absent (JavaScript's `undefined`/`null`). */
  datatype Option<+T> = None | Some(value: T)

  /** A user as the provider describes it: a numeric id and a login name. */
  datatype Account = Account(id: nat, login: string)

  /**
   One element of either fetched list. A comment carries `user`; a contributor
   statistic carries `author` and `total`. Both optional fields are kept, since
   the merge decides a record's kind by which of them is present.
   */
  datatype ApiRecord = ApiRecord(author: Option<Account>, total: int, user: Option<Account>)

  /** The merged per-user row: one per distinct user id. */
  datatype UserStat = UserStat(id: nat, userName: string, commentsCount: nat, commitsCount: int)

  /** A contributor statistic: its `author` is present (an object is truthy). */
  predicate IsContribution(r: ApiRecord) {
    r.author.Some?
  }

  /** A comment: no `author`, but a `user`. */
  predicate IsComment(r: ApiRecord) {
    r.author.None? && r.user.Some?
  }

  /** The account a record is counted for, if any: its author, else its user. */
  function Subject(r: ApiRecord): (a: Option<Account>)
    ensures a.None? <==> !IsContribution(r) && !IsComment(r)
    ensures IsContribution(r) ==> a == r.author
    ensures IsComment(r) ==> a == r.user
  {
    if r.author.Some? then r.author else r.user
  }

  /** The record is counted for the user with this id. */
  predicate MentionsId(r: ApiRecord, id: nat) {
    Subject(r).Some? && Subject(r).value.id == id
  }

  /** The record is a contributor statistic for this id. */
  predicate ContributionFor(r: ApiRecord, id: nat) {
    r.author.Some? && r.author.value.id == id
  }

  /** The record is a comment by this id. */
  predicate CommentFor(r: ApiRecord, id: nat) {
    r.author.None? && r.user.Some? && r.user.value.id == id
  }

  /** Every counted record is counted for exactly the id of its subject. */
  lemma KindsMentionTheirId(r: ApiRecord, id: nat)
    ensures ContributionFor(r, id) ==> MentionsId(r, id)
    ensures CommentFor(r, id) ==> MentionsId(r, id)
    ensures MentionsId(r, id) ==> ContributionFor(r, id) || CommentFor(r, id)
    ensures !(ContributionFor(r, id) && CommentFor(r, id))
  {
  }
}
