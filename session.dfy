/**
 * The `Zindian` session object: a signed-in user who selects one challenge
 * and then downloads its data, submits files, reads the boards and manages
 * a team. Every challenge-scoped operation checks the selection flag first
 * and raises (or returns a sentinel) before issuing any request to the
 * platform; only `download_dataset` may create its destination directory
 * before that check.
 *
 * Server replies, the results of the helper functions the session calls
 * (joining, searching, prompting, locating the user on the leaderboard)
 * and the existence of files are parameters. The ghost field `trace`
 * records, in order, every request the session issues itself and one entry
 * per call of the `join_challenge`, `get_challenges`, `download` and
 * `upload` helpers, plus the participations lookup of `user_on_lb`; other
 * requests made inside those helpers are not recorded.
 */
module Session {
  import opened Replies
  import Ordinal
  import Manifest
  import SubmitRules
  import Teams

  /** Root of the challenge endpoints. */
  const BaseApi := "https://api.zindi.africa/v1/competitions"

  /** The index argument of a search-mode selection. */
  datatype IndexChoice =
    | Prompted(answer: int)  // no `fixed_index`: the index read at the prompt, -1 to quit
    | Fixed(index: int)      // an integer `fixed_index`
    | FixedNotInt            // a `fixed_index` that is not an integer

  /** What a selection does before it joins. */
  datatype Decision =
    | KeepState                                 // prints, selects nothing, raises nothing
    | Refuse(failure: Failure)                  // raises, selects nothing
    | Choose(challenge: Challenge, api: string) // selects the challenge, then joins it

  /** The result of the join helper called after a selection. */
  datatype JoinOutcome = Joined | JoinRaised(message: string)

  /** A non-empty `challenge_id` selects directly; an empty one is falsy
      and falls through to the search. */
  predicate DirectMode(challengeId: Option<string>)
    ensures DirectMode(challengeId) <==> challengeId != None && challengeId != Some("")
  {
    challengeId.Some? && challengeId.value != ""
  }

  function ApiOf(id: string): string
  {
    BaseApi + "/" + id
  }

  /** The selection rule. A direct lookup with `errors`, an empty search and
      a prompt answered with a negative index leave the session as it was;
      an explicit index outside [0, n) raises; any other outcome selects. */
  function Decide(challengeId: Option<string>, lookup: Reply<Challenge>, found: seq<Challenge>, index: IndexChoice): (d: Decision)
    ensures DirectMode(challengeId) ==>
      (d.KeepState? <==> lookup.Err?) &&
      (d.Choose? <==> lookup.Ok?) &&
      (lookup.Ok? ==> d == Choose(lookup.payload, ApiOf(challengeId.value)))
    ensures !DirectMode(challengeId) && found == [] ==> d == KeepState
    ensures !DirectMode(challengeId) && found != [] && !index.Prompted? ==>
      if index.Fixed? && 0 <= index.index < |found|
      then d == Choose(found[index.index], ApiOf(found[index.index].id))
      else d == Refuse(IndexNotInRange(|found|))
    ensures !DirectMode(challengeId) && found != [] && index.Prompted? ==>
      (index.answer < 0 ==> d == KeepState) &&
      (0 <= index.answer < |found| ==> d == Choose(found[index.answer], ApiOf(found[index.answer].id))) &&
      (index.answer >= |found| ==> d == Refuse(PositionOutOfBounds(index.answer)))
    ensures d.Choose? ==> d.api == ApiOf(if DirectMode(challengeId) then challengeId.value else d.challenge.id)
  {
    if DirectMode(challengeId) then
      match lookup
      case Err(_) => KeepState
      case Ok(challenge) => Choose(challenge, ApiOf(challengeId.value))
    else if |found| == 0 then KeepState
    else
      match index
      case FixedNotInt => Refuse(IndexNotInRange(|found|))
      case Fixed(i) =>
        if i < 0 || i >= |found| then Refuse(IndexNotInRange(|found|))
        else Choose(found[i], ApiOf(found[i].id))
      case Prompted(i) =>
        if i <= -1 then KeepState
        else if i >= |found| then Refuse(PositionOutOfBounds(i))
        else Choose(found[i], ApiOf(found[i].id))
  }

  /** `public_rank` of a participation, 0 when absent or null. */
  function PublicRank(p: Participation): (r: int)
    ensures r == 0 <==> p.publicRank == None || p.publicRank == Some(0)
    ensures r != 0 ==> p.publicRank == Some(r)
  {
    match p.publicRank
    case None => 0
    case Some(r) => r
  }

  /** What an invitation batch returns: it raises with the failure of the
      first invitation whose reply raises, else it returns. */
  function InviteOutcome(names: seq<string>, reply: nat -> Reply<string>): (o: Outcome<()>)
    ensures o.Raised? <==> exists j :: 0 <= j < |names| && Teams.Fatal(reply(j))
  {
    var k := Teams.FirstFatal(|names|, reply, 0);
    if k < |names| then Raised(Teams.ClassifyInvite(reply(k)).failure) else Returned(())
  }

  /** A caller's list of comments; `submit` extends it in place. */
  class CommentList {
    var items: seq<string>

    constructor (items: seq<string>)
      ensures this.items == items
    {
      this.items := items;
    }

    /** Pads the list in place with "" up to `n` entries; a list already
        that long is left as it is. */
    method Pad(n: nat)
      modifies this
      ensures items == SubmitRules.Padded(old(items), n)
    {
      if |items| < n {
        items := items + SubmitRules.Blanks(n - |items|);
      }
    }
  }

  class Zindian {
    /** The signed-in user, from the sign-in reply. */
    const username: string
    const authToken: string

    var challengeSelected: bool
    var challengeData: Option<Challenge>
    var api: Option<string>
    var rank: Option<int>
    var challengersData: Option<seq<LeaderboardRow>>
    var sbData: Option<seq<SubmissionRow>>

    /** Every request issued so far, in order. */
    ghost var trace: seq<Request>

    /** The flag, the cached challenge and its API root are set together. */
    ghost predicate Valid()
      reads this
    {
      && (challengeSelected <==> challengeData.Some?)
      && (challengeSelected <==> api.Some?)
    }

    /** The session after a successful sign-in: nothing selected, nothing cached. */
    constructor SignedIn(requestedUser: string, auth: AuthData)
      ensures Valid() && !challengeSelected
      ensures username == auth.username && authToken == auth.authToken
      ensures rank == None && challengersData == None && sbData == None
      ensures trace == [SignInPost(requestedUser)]
    {
      username := auth.username;
      authToken := auth.authToken;
      challengeSelected := false;
      challengeData := None;
      api := None;
      rank := None;
      challengersData := None;
      sbData := None;
      trace := [SignInPost(requestedUser)];
    }

    /** Sign-in: a reply with `errors` raises and yields no session; otherwise
        the new session starts with no challenge selected. */
    static method SignIn(requestedUser: string, reply: Reply<AuthData>) returns (result: Outcome<Zindian>)
      ensures reply.Err? ==> result == Raised(SignInRejected(reply.errors))
      ensures reply.Ok? ==> result.Returned? && fresh(result.value)
      ensures reply.Ok? ==> var z := result.value;
        && z.Valid() && !z.challengeSelected
        && z.username == reply.payload.username && z.authToken == reply.payload.authToken
        && z.rank == None && z.challengersData == None && z.sbData == None
        && z.trace == [SignInPost(requestedUser)]
    {
      if reply.Err? {
        result := Raised(SignInRejected(reply.errors));
      } else {
        var z := new Zindian.SignedIn(requestedUser, reply.payload);
        result := Returned(z);
      }
    }

    /** `which_challenge`: the selected challenge's id, or None. */
    function WhichChallenge(): (id: Option<string>)
      reads this
      requires Valid()
      ensures id.Some? <==> challengeSelected
      ensures challengeSelected ==> id == Some(challengeData.value.id)
    {
      if challengeSelected then Some(challengeData.value.id) else None
    }

    /** `my_rank`: 0 without a request when nothing is selected; otherwise the
        participation's public rank (0 when absent), which is also cached,
        and the ordinal text the session prints for it. */
    method MyRank(reply: Reply<Participation>) returns (outcome: Outcome<int>, text: string)
      requires Valid()
      modifies this`rank, this`trace
      ensures Valid()
      ensures !challengeSelected ==> outcome == Returned(0) && rank == old(rank) && trace == old(trace)
      ensures challengeSelected ==> trace == old(trace) + [FetchMyParticipation(api.value)]
      ensures challengeSelected && reply.Err? ==> outcome == Raised(ServerError(reply.errors)) && rank == old(rank)
      ensures challengeSelected && reply.Ok? ==>
        var r := PublicRank(reply.payload);
        outcome == Returned(r) && rank == Some(r) && text == Ordinal.RankText(r)
    {
      text := "";
      if !challengeSelected {
        outcome := Returned(0);
        return;
      }
      trace := trace + [FetchMyParticipation(api.value)];
      match reply
      case Err(errors) =>
        outcome := Raised(ServerError(errors));
      case Ok(participation) =>
        var r := PublicRank(participation);
        rank := Some(r);
        text := Ordinal.RankText(r);
        outcome := Returned(r);
    }

    /** `remaining_subimissions`: None without a request when nothing is
        selected; otherwise the `today` count of the limits reply. */
    method RemainingSubmissions(reply: Reply<Limits>) returns (outcome: Outcome<Option<int>>)
      requires Valid()
      modifies this`trace
      ensures Valid()
      ensures !challengeSelected ==> outcome == Returned(None) && trace == old(trace)
      ensures challengeSelected ==> trace == old(trace) + [FetchLimits(api.value)]
      ensures challengeSelected && reply.Err? ==> outcome == Raised(ServerError(reply.errors))
      ensures challengeSelected && reply.Ok? ==> outcome == Returned(Some(reply.payload.today))
    {
      if !challengeSelected {
        outcome := Returned(None);
        return;
      }
      trace := trace + [FetchLimits(api.value)];
      match reply
      case Err(errors) =>
        outcome := Raised(ServerError(errors));
      case Ok(limits) =>
        outcome := Returned(Some(limits.today));
    }

    /** `select_a_challenge`. The state changes only when `Decide` chooses; the
        flag, the challenge and the API root are then set before the join,
        so a join that raises leaves the challenge selected. */
    method SelectAChallenge(challengeId: Option<string>, lookup: Reply<Challenge>, found: seq<Challenge>,
                            index: IndexChoice, join: JoinOutcome)
      returns (outcome: Outcome<()>)
      requires Valid()
      modifies this`challengeSelected, this`challengeData, this`api, this`trace
      ensures Valid()
      ensures old(challengeSelected) ==> challengeSelected
      ensures var d := Decide(challengeId, lookup, found, index);
        var fetch := if DirectMode(challengeId) then FetchChallenge(ApiOf(challengeId.value)) else SearchChallenges;
        && (d.Choose? ==>
              && challengeSelected && challengeData == Some(d.challenge) && api == Some(d.api)
              && trace == old(trace) + [fetch, Join(d.api + "/participations")]
              && outcome == (if join.Joined? then Returned(()) else Raised(JoinFailed(join.message))))
        && (!d.Choose? ==>
              && challengeSelected == old(challengeSelected)
              && challengeData == old(challengeData) && api == old(api)
              && trace == old(trace) + [fetch])
        && (d.KeepState? ==> outcome == Returned(()))
        && (d.Refuse? ==> outcome == Raised(d.failure))
    {
      var d := Decide(challengeId, lookup, found, index);
      if DirectMode(challengeId) {
        trace := trace + [FetchChallenge(ApiOf(challengeId.value))];
      } else {
        trace := trace + [SearchChallenges];
      }
      match d
      case KeepState =>
        outcome := Returned(());
      case Refuse(failure) =>
        outcome := Raised(failure);
      case Choose(challenge, root) =>
        challengeData := Some(challenge);
        api := Some(root);
        challengeSelected := true;
        trace := trace + [Join(root + "/participations")];
        match join
        case Joined =>
          outcome := Returned(());
        case JoinRaised(message) =>
          outcome := Raised(JoinFailed(message));
    }

    /** `download_dataset`. The destination is created first when it is not a
        directory and creation is requested, even when nothing is selected;
        then, with a challenge selected, the manifest is fetched and each
        distinct record is downloaded once, in first-occurrence order. */
    method DownloadDataset(destination: string, makeDestination: bool, isDir: bool, manifest: Reply<seq<DataFile>>)
      returns (outcome: Outcome<()>)
      requires Valid()
      modifies this`trace
      ensures Valid()
      ensures var made := if !isDir && makeDestination then [MakeDirs(destination)] else [];
        && (!challengeSelected ==> outcome == Raised(NoChallengeSelected) && trace == old(trace) + made)
        && (challengeSelected && manifest.Err? ==>
              outcome == Raised(MalformedReply) && trace == old(trace) + made + [FetchManifest(api.value)])
        && (challengeSelected && manifest.Ok? ==>
              && outcome == Returned(())
              && trace == old(trace) + made + [FetchManifest(api.value)]
                 + Manifest.DownloadPlan(api.value, destination, Manifest.FirstOccurrences(manifest.payload)))
    {
      ghost var made := if !isDir && makeDestination then [MakeDirs(destination)] else [];
      if !isDir && makeDestination {
        trace := trace + [MakeDirs(destination)];
      }
      assert trace == old(trace) + made;
      if !challengeSelected {
        outcome := Raised(NoChallengeSelected);
        return;
      }
      var root := api.value;
      trace := trace + [FetchManifest(root)];
      ghost var fetched := trace;
      if manifest.Err? {
        outcome := Raised(MalformedReply);
        return;
      }
      var datafiles := Manifest.Dedup(manifest.payload);
      DownloadAll(root, destination, datafiles);
      assert trace == fetched + Manifest.DownloadPlan(root, destination, Manifest.FirstOccurrences(manifest.payload));
      outcome := Returned(());
    }

    /** The download loop of `download_dataset`: one download per record,
        in list order. */
    method DownloadAll(root: string, destination: string, datafiles: seq<DataFile>)
      modifies this`trace
      ensures trace == old(trace) + Manifest.DownloadPlan(root, destination, datafiles)
    {
      ghost var before := trace;
      for i := 0 to |datafiles|
        invariant trace == before + Manifest.DownloadPlan(root, destination, datafiles[..i])
      {
        var download := Manifest.DownloadOf(root, destination, datafiles[i]);
        assert before + Manifest.DownloadPlan(root, destination, datafiles[..i + 1]) == trace + [download] by {
          assert datafiles[..i + 1][..i] == datafiles[..i];
          assert Manifest.DownloadPlan(root, destination, datafiles[..i + 1])
              == Manifest.DownloadPlan(root, destination, datafiles[..i]) + [download];
        }
        trace := trace + [download];
      }
      assert datafiles[..|datafiles|] == datafiles;
    }

    /** One (path, comment) pair of `submit`: a path failing the extension
        test or naming no file is only reported; otherwise it is uploaded
        with its comment and the reply is reported. */
    method SubmitPair(url: string, path: string, comment: string, accepts: string -> bool, isFile: string -> bool, reply: Reply<string>)
      returns (result: SubmitRules.PairOutcome)
      modifies this`trace
      ensures result == SubmitRules.OutcomeOf(path, accepts, isFile, reply)
      ensures trace == old(trace) + SubmitRules.PairUpload(url, path, comment, SubmitRules.UploadRule(accepts, isFile))
    {
      SubmitRules.PairUploadRule(url, path, comment, accepts, isFile);
      if !accepts(path) {
        result := SubmitRules.NotCsv;
      } else if !isFile(path) {
        result := SubmitRules.FileMissing;
      } else {
        trace := trace + [Upload(url, path, comment)];
        match reply
        case Ok(id) =>
          result := SubmitRules.Submitted(id);
        case Err(errors) =>
          result := SubmitRules.Rejected(errors);
      }
    }

    /** The pairs of `submit`, in order, each handled on its own; a refused
        pair never stops the pairs after it. */
    method SubmitPairs(url: string, filepaths: seq<string>, comments: seq<string>,
                       accepts: string -> bool, isFile: string -> bool, reply: nat -> Reply<string>)
      returns (results: seq<SubmitRules.PairOutcome>)
      requires |comments| >= |filepaths|
      modifies this`trace
      ensures trace == old(trace) + SubmitRules.UploadPlan(url, filepaths, comments, SubmitRules.UploadRule(accepts, isFile))
      ensures |results| == |filepaths|
      ensures forall i :: 0 <= i < |filepaths| ==> results[i] == SubmitRules.OutcomeOf(filepaths[i], accepts, isFile, reply(i))
    {
      ghost var rule := SubmitRules.UploadRule(accepts, isFile);
      ghost var before := trace;
      results := [];
      for i := 0 to |filepaths|
        invariant trace == before + SubmitRules.UploadPlan(url, filepaths[..i], comments, rule)
        invariant |results| == i
        invariant forall j :: 0 <= j < i ==> results[j] == SubmitRules.OutcomeOf(filepaths[j], accepts, isFile, reply(j))
      {
        ghost var prefix := trace;
        var result := SubmitPair(url, filepaths[i], comments[i], accepts, isFile, reply(i));
        assert trace == before + SubmitRules.UploadPlan(url, filepaths[..i + 1], comments, rule) by {
          SubmitRules.UploadPlanStep(url, filepaths, comments, rule, i);
          assert trace == prefix + SubmitRules.PairUpload(url, filepaths[i], comments[i], rule);
        }
        ghost var earlier := results;
        results := results + [result];
        forall j | 0 <= j <= i
          ensures results[j] == SubmitRules.OutcomeOf(filepaths[j], accepts, isFile, reply(j))
        {
          if j < i {
            assert results[j] == earlier[j];
          }
        }
      }
      assert filepaths[..|filepaths|] == filepaths;
    }

    /** `submit`. With a challenge selected the comment list is padded in
        place with "" up to the number of paths, then the pairs are handled
        as by `SubmitPairs`. `reply(i)` is the reply to the upload of pair `i`. */
    method Submit(filepaths: seq<string>, comments: CommentList, isFile: string -> bool, reply: nat -> Reply<string>)
      returns (outcome: Outcome<seq<SubmitRules.PairOutcome>>)
      requires Valid()
      modifies this`trace, comments
      ensures Valid()
      ensures !challengeSelected ==>
        outcome == Raised(NoChallengeSelected) && trace == old(trace) && comments.items == old(comments.items)
      ensures challengeSelected ==>
        && comments.items == SubmitRules.Padded(old(comments.items), |filepaths|)
        && trace == old(trace) + SubmitRules.UploadPlan(api.value + "/submissions", filepaths, comments.items, SubmitRules.UploadRule(SubmitRules.IsCsvPath, isFile))
        && outcome.Returned? && |outcome.value| == |filepaths|
        && forall i :: 0 <= i < |filepaths| ==>
             outcome.value[i] == SubmitRules.OutcomeOf(filepaths[i], SubmitRules.IsCsvPath, isFile, reply(i))
    {
      if !challengeSelected {
        outcome := Raised(NoChallengeSelected);
        return;
      }
      var url := api.value + "/submissions";
      comments.Pad(|filepaths|);
      var results := SubmitPairs(url, filepaths, comments.items, SubmitRules.IsCsvPath, isFile, reply);
      outcome := Returned(results);
    }

    /** `leaderboard`: raises without a request when nothing is selected; a
        reply with `errors` raises and caches nothing. Otherwise the rows are
        cached first and then the leaderboard helper, which looks up the
        user's participations, locates the user: the rank it finds is cached,
        and when it raises the exception propagates with the rank unchanged. */
    method Leaderboard(perPage: int, reply: Reply<seq<LeaderboardRow>>, rankOnBoard: Outcome<int>) returns (outcome: Outcome<()>)
      requires Valid()
      modifies this`challengersData, this`rank, this`trace
      ensures Valid()
      ensures !challengeSelected ==>
        && outcome == Raised(NoChallengeSelected) && trace == old(trace)
        && challengersData == old(challengersData) && rank == old(rank)
      ensures challengeSelected && reply.Err? ==>
        && trace == old(trace) + [FetchLeaderboard(api.value, perPage)]
        && outcome == Raised(ServerError(reply.errors)) && challengersData == old(challengersData) && rank == old(rank)
      ensures challengeSelected && reply.Ok? ==>
        && trace == old(trace) + [FetchLeaderboard(api.value, perPage), FetchParticipations]
        && challengersData == Some(reply.payload)
      ensures challengeSelected && reply.Ok? && rankOnBoard.Returned? ==>
        outcome == Returned(()) && rank == Some(rankOnBoard.value)
      ensures challengeSelected && reply.Ok? && rankOnBoard.Raised? ==>
        outcome == Raised(rankOnBoard.failure) && rank == old(rank)
    {
      if !challengeSelected {
        outcome := Raised(NoChallengeSelected);
        return;
      }
      trace := trace + [FetchLeaderboard(api.value, perPage)];
      match reply
      case Err(errors) =>
        outcome := Raised(ServerError(errors));
      case Ok(rows) =>
        challengersData := Some(rows);
        trace := trace + [FetchParticipations];
        match rankOnBoard
        case Returned(r) =>
          rank := Some(r);
          outcome := Returned(());
        case Raised(failure) =>
          outcome := Raised(failure);
    }

    /** `submission_board`: raises without a request when nothing is selected;
        a reply with `errors` raises; otherwise its rows are cached. */
    method SubmissionBoard(perPage: int, reply: Reply<seq<SubmissionRow>>) returns (outcome: Outcome<()>)
      requires Valid()
      modifies this`sbData, this`trace
      ensures Valid()
      ensures !challengeSelected ==> outcome == Raised(NoChallengeSelected) && trace == old(trace) && sbData == old(sbData)
      ensures challengeSelected ==> trace == old(trace) + [FetchSubmissions(api.value, perPage)]
      ensures challengeSelected && reply.Err? ==> outcome == Raised(ServerError(reply.errors)) && sbData == old(sbData)
      ensures challengeSelected && reply.Ok? ==> outcome == Returned(()) && sbData == Some(reply.payload)
    {
      if !challengeSelected {
        outcome := Raised(NoChallengeSelected);
        return;
      }
      trace := trace + [FetchSubmissions(api.value, perPage)];
      match reply
      case Err(errors) =>
        outcome := Raised(ServerError(errors));
      case Ok(rows) =>
        sbData := Some(rows);
        outcome := Returned(());
    }

    /** `team_up`: invitations are posted in list order; an "already invited"
        notice is benign, any other `errors` raises at once and the names
        after it are never invited. `reply(j)` answers invitation `j`. */
    method TeamUp(zindians: seq<string>, reply: nat -> Reply<string>) returns (outcome: Outcome<()>)
      requires Valid()
      modifies this`trace
      ensures Valid()
      ensures !challengeSelected ==> outcome == Raised(NoChallengeSelected) && trace == old(trace)
      ensures challengeSelected ==>
        && trace == old(trace) + Teams.InvitePlan(api.value, zindians, Teams.InvitesPosted(zindians, reply))
        && outcome == InviteOutcome(zindians, reply)
    {
      if !challengeSelected {
        outcome := Raised(NoChallengeSelected);
        return;
      }
      outcome := InviteAll(api.value, zindians, reply);
    }

    /** The invitation loop of `team_up`: each name is invited in turn until
        a reply raises. */
    method InviteAll(root: string, zindians: seq<string>, reply: nat -> Reply<string>) returns (outcome: Outcome<()>)
      modifies this`trace
      ensures trace == old(trace) + Teams.InvitePlan(root, zindians, Teams.InvitesPosted(zindians, reply))
      ensures outcome == InviteOutcome(zindians, reply)
    {
      ghost var before := trace;
      var i := 0;
      while i < |zindians|
        invariant 0 <= i <= |zindians|
        invariant forall j :: 0 <= j < i ==> !Teams.Fatal(reply(j))
        invariant trace == before + Teams.InvitePlan(root, zindians, i)
      {
        assert before + Teams.InvitePlan(root, zindians, i + 1) == trace + [InvitePost(root, zindians[i])] by {
          assert Teams.InvitePlan(root, zindians, i + 1) == Teams.InvitePlan(root, zindians, i) + [InvitePost(root, zindians[i])];
        }
        trace := trace + [InvitePost(root, zindians[i])];
        var verdict := Teams.ClassifyInvite(reply(i));
        if verdict.InviteRaises? {
          assert Teams.FirstFatal(|zindians|, reply, 0) == i;
          outcome := Raised(verdict.failure);
          return;
        }
        i := i + 1;
      }
      assert Teams.FirstFatal(|zindians|, reply, 0) == |zindians|;
      outcome := Returned(());
    }

    /** `create_team`: an `errors` reply raises unless its `base` carries the
        leader notice; after a creation or that notice the teammates, if
        any, are invited as by `TeamUp`. */
    method CreateTeam(teamName: string, teammates: seq<string>, reply: Reply<string>, inviteReply: nat -> Reply<string>)
      returns (outcome: Outcome<()>)
      requires Valid()
      modifies this`trace
      ensures Valid()
      ensures !challengeSelected ==> outcome == Raised(NoChallengeSelected) && trace == old(trace)
      ensures challengeSelected ==> var verdict := Teams.ClassifyCreate(reply);
        var created := old(trace) + [CreateTeamPost(api.value, teamName)];
        && (verdict.CreateRaises? ==> outcome == Raised(verdict.failure) && trace == created)
        && (!verdict.CreateRaises? && teammates == [] ==> outcome == Returned(()) && trace == created)
        && (!verdict.CreateRaises? && teammates != [] ==>
              && outcome == InviteOutcome(teammates, inviteReply)
              && trace == created + Teams.InvitePlan(api.value, teammates, Teams.InvitesPosted(teammates, inviteReply)))
    {
      if !challengeSelected {
        outcome := Raised(NoChallengeSelected);
        return;
      }
      trace := trace + [CreateTeamPost(api.value, teamName)];
      var verdict := Teams.ClassifyCreate(reply);
      if verdict.CreateRaises? {
        outcome := Raised(verdict.failure);
      } else if |teammates| > 0 {
        outcome := TeamUp(teammates, inviteReply);
      } else {
        outcome := Returned(());
      }
    }

    /** `disband_team`: raises without a request when nothing is selected;
        otherwise one delete is issued and the reply decides as
        `Teams.DisbandOutcome` says. */
    method DisbandTeam(reply: Reply<string>) returns (outcome: Outcome<()>)
      requires Valid()
      modifies this`trace
      ensures Valid()
      ensures !challengeSelected ==> outcome == Raised(NoChallengeSelected) && trace == old(trace)
      ensures challengeSelected ==> trace == old(trace) + [DisbandDelete(api.value)]
      ensures challengeSelected ==> outcome == Teams.DisbandOutcome(reply)
    {
      if !challengeSelected {
        outcome := Raised(NoChallengeSelected);
        return;
      }
      trace := trace + [DisbandDelete(api.value)];
      match reply
      case Err(errors) =>
        outcome := Raised(ServerError(errors));
      case Ok(message) =>
        if Contains(message, "errors") {
          outcome := Raised(MalformedReply);
        } else {
          outcome := Returned(());
        }
    }
  }
}
