/**
 * Values exchanged between the Zindi session object and the platform.
 *
 * Every server answer is an input value of type `Reply`: either the payload
 * of the `data` envelope, or the `errors` entry that the platform puts in
 * the envelope instead. The session never sees transport failures here.
 */
module Replies {

  datatype Option<T> = None | Some(value: T)

  /** The `errors` entry of a reply. Team endpoints read its `base` key;
      an entry without one makes that lookup fail. */
  datatype ErrorBody =
    | WithBase(base: string)
    | WithoutBase(text: string)

  /** A reply whose envelope holds either the payload or an `errors` entry. */
  datatype Reply<T> = Ok(payload: T) | Err(errors: ErrorBody)

  /** Why an operation raised. */
  datatype Failure =
    | SignInRejected(errors: ErrorBody)       // sign-in reply carried `errors`
    | NoChallengeSelected                     // challenge-scoped call before a selection
    | IndexNotInRange(count: nat)             // `fixed_index` not an int in [0, count)
    | PositionOutOfBounds(index: int)         // a prompted index the result list does not have
    | ServerError(errors: ErrorBody)          // `errors` reported verbatim
    | MalformedReply                          // a key the code reads is missing from the reply
    | JoinFailed(message: string)             // raised while joining the selected challenge

  /** What a Python call does: return a value or raise. */
  datatype Outcome<T> = Returned(value: T) | Raised(failure: Failure)

  /** A challenge descriptor; `id` also names its API root. */
  datatype Challenge = Challenge(id: string, subtitle: string)

  /** One record of a dataset manifest; two records are the same only when
      every field agrees. */
  datatype DataFile = DataFile(filename: string, id: string, extra: map<string, string>)

  /** Sign-in payload: the token and the signed-in user's name. */
  datatype AuthData = AuthData(authToken: string, username: string)

  /** The `my_participation` payload; `publicRank` is None when the key is
      absent or null. */
  datatype Participation = Participation(publicRank: Option<int>)

  /** The `submissions/limits` payload. */
  datatype Limits = Limits(today: int)

  /** A leaderboard row, cached as received. */
  datatype LeaderboardRow = LeaderboardRow(publicRank: Option<int>, name: string, submissionCount: int)

  /** A submission-board row, cached as received. */
  datatype SubmissionRow = SubmissionRow(id: string, status: string, filename: string, comment: string)

  /** The requests a session issues, in the order it issues them. */
  datatype Request =
    | SignInPost(username: string)
    | FetchChallenge(url: string)
    | SearchChallenges
    | Join(url: string)
    | FetchMyParticipation(api: string)
    | FetchLimits(api: string)
    | MakeDirs(path: string)
    | FetchManifest(api: string)
    | DownloadFile(url: string, target: string)
    | Upload(url: string, path: string, comment: string)
    | FetchLeaderboard(api: string, perPage: int)
    | FetchParticipations                       // the user's participations, looked up by `user_on_lb`
    | FetchSubmissions(api: string, perPage: int)
    | CreateTeamPost(api: string, title: string)
    | InvitePost(api: string, username: string)
    | DisbandDelete(api: string)

  predicate OccursAt(s: string, sub: string, k: int)
  {
    0 <= k <= |s| - |sub| && s[k..k + |sub|] == sub
  }

  /** When `sub` is not at the front of `s`, it occurs in `s` exactly when
      it occurs in `s` without its first character. */
  lemma OccursPastFront(s: string, sub: string)
    requires |sub| <= |s| && s[..|sub|] != sub
    ensures (exists k :: OccursAt(s, sub, k)) <==> (exists k :: OccursAt(s[1..], sub, k))
  {
    assert !OccursAt(s, sub, 0);
    if exists k :: OccursAt(s[1..], sub, k) {
      var k :| OccursAt(s[1..], sub, k);
      assert s[k + 1..k + 1 + |sub|] == s[1..][k..k + |sub|];
      assert OccursAt(s, sub, k + 1);
    }
    if exists k :: OccursAt(s, sub, k) {
      var k :| OccursAt(s, sub, k);
      assert s[1..][k - 1..k - 1 + |sub|] == s[k..k + |sub|];
      assert OccursAt(s[1..], sub, k - 1);
    }
  }

  /** Substring test, Python's `sub in s`: true exactly when `sub` occurs
      in `s` at some offset. */
  predicate Contains(s: string, sub: string)
    ensures Contains(s, sub) <==> exists k :: OccursAt(s, sub, k)
    decreases |s|
  {
    if |sub| > |s| then false
    else if s[..|sub|] == sub then
      assert OccursAt(s, sub, 0);
      true
    else
      OccursPastFront(s, sub);
      Contains(s[1..], sub)
  }
}
