/**
 * How the team operations read the platform's replies: which `errors`
 * are benign notices and which raise, and where an invitation batch stops.
 */
module Teams {
  import opened Replies

  /** The notice that makes a failed team creation benign. */
  const LeaderNotice := "Leader can only be"

  /** The notice that makes a failed invitation benign. */
  const InvitedNotice := "is already invited"

  datatype CreateVerdict =
    | Created(title: string)          // the team was created under this title
    | AlreadyLeader                   // benign: the caller already leads a team
    | CreateRaises(failure: Failure)  // anything else in `errors`

  /** Classification of a team-creation reply. The benign case needs an
      `errors` entry whose `base` contains the leader notice; an entry
      without `base` fails the lookup and raises. */
  function ClassifyCreate(reply: Reply<string>): (v: CreateVerdict)
    ensures v.Created? <==> reply.Ok?
    ensures v.AlreadyLeader? <==> reply.Err? && reply.errors.WithBase? && Contains(reply.errors.base, LeaderNotice)
    ensures v.CreateRaises? ==> v.failure == (if reply.errors.WithBase? then ServerError(reply.errors) else MalformedReply)
  {
    match reply
    case Ok(title) => Created(title)
    case Err(WithBase(base)) =>
      if Contains(base, LeaderNotice) then AlreadyLeader else CreateRaises(ServerError(WithBase(base)))
    case Err(WithoutBase(_)) => CreateRaises(MalformedReply)
  }

  datatype InviteVerdict =
    | Invited                         // the invitation was sent
    | AlreadyInvited                  // benign: an invitation was sent before
    | InviteRaises(failure: Failure)  // anything else in `errors`

  /** Classification of one invitation reply. */
  function ClassifyInvite(reply: Reply<string>): (v: InviteVerdict)
    ensures v.Invited? <==> reply.Ok?
    ensures v.AlreadyInvited? <==> reply.Err? && reply.errors.WithBase? && Contains(reply.errors.base, InvitedNotice)
    ensures v.InviteRaises? ==> v.failure == (if reply.errors.WithBase? then ServerError(reply.errors) else MalformedReply)
  {
    match reply
    case Ok(_) => Invited
    case Err(WithBase(base)) =>
      if Contains(base, InvitedNotice) then AlreadyInvited else InviteRaises(ServerError(WithBase(base)))
    case Err(WithoutBase(_)) => InviteRaises(MalformedReply)
  }

  predicate Fatal(reply: Reply<string>)
  {
    ClassifyInvite(reply).InviteRaises?
  }

  /** The position, from `i` on, of the first invitation whose reply raises,
      or `count` when none does; `reply(j)` is the reply to invitation `j`. */
  function FirstFatal(count: nat, reply: nat -> Reply<string>, i: nat): (k: nat)
    requires i <= count
    ensures i <= k <= count
    ensures forall j :: i <= j < k ==> !Fatal(reply(j))
    ensures k < count ==> Fatal(reply(k))
    decreases count - i
  {
    if i == count then i
    else if Fatal(reply(i)) then i
    else FirstFatal(count, reply, i + 1)
  }

  /** The invitations posted for the first `n` names: one per name, the
      last to the n-th name. */
  function InvitePlan(api: string, names: seq<string>, n: nat): (plan: seq<Request>)
    requires n <= |names|
    ensures |plan| == n
    ensures n > 0 ==> plan[n - 1] == InvitePost(api, names[n - 1])
    decreases n
  {
    if n == 0 then [] else InvitePlan(api, names, n - 1) + [InvitePost(api, names[n - 1])]
  }

  /** The j-th invitation posted goes to the j-th name: the list is
      invited in order. */
  lemma {:induction false} InvitePlanAt(api: string, names: seq<string>, n: nat, j: nat)
    requires n <= |names| && j < n
    ensures InvitePlan(api, names, n)[j] == InvitePost(api, names[j])
    decreases n
  {
    if j < n - 1 {
      InvitePlanAt(api, names, n - 1, j);
    }
  }

  /** How many invitations a batch posts: all of them when no reply raises,
      else those up to and including the first that raises. */
  function InvitesPosted(names: seq<string>, reply: nat -> Reply<string>): (n: nat)
    ensures n <= |names|
    ensures forall j :: 0 <= j < n - 1 ==> !Fatal(reply(j))
    ensures n < |names| ==> n > 0 && Fatal(reply(n - 1))
  {
    var k := FirstFatal(|names|, reply, 0);
    if k < |names| then k + 1 else k
  }

  /** The leader notice as the platform words it is benign. */
  lemma LeaderNoticeExample()
    ensures ClassifyCreate(Err(WithBase("Leader can only be" + " part of one team per competition."))) == AlreadyLeader
  {
    var s := "Leader can only be" + " part of one team per competition.";
    assert OccursAt(s, LeaderNotice, 0);
  }

  /** The invitation notice as the platform words it is benign. */
  lemma InvitedNoticeExample()
    ensures ClassifyInvite(Err(WithBase("User is already invited"))) == AlreadyInvited
  {
    assert OccursAt("User is already invited", InvitedNotice, 5);
  }

  /** What `disband_team` makes of its reply. An `errors` entry raises. The
      success payload is a bare message string, and the session tests it
      with `"errors" in`, which on a string is a substring test: a message
      containing "errors" passes that test and then fails the `["errors"]`
      lookup on a string, so it raises as well. */
  function DisbandOutcome(reply: Reply<string>): (o: Outcome<()>)
    ensures o.Returned? <==> reply.Ok? && !Contains(reply.payload, "errors")
    ensures reply.Err? ==> o == Raised(ServerError(reply.errors))
    ensures reply.Ok? && o.Raised? ==> o.failure == MalformedReply
  {
    match reply
    case Err(errors) => Raised(ServerError(errors))
    case Ok(message) => if Contains(message, "errors") then Raised(MalformedReply) else Returned(())
  }

  /** A disband message that mentions "errors" raises although the server
      reported success. */
  lemma DisbandMessageMentioningErrorsRaises()
    ensures DisbandOutcome(Ok("no errors")) == Raised(MalformedReply)
  {
    assert OccursAt("no errors", "errors", 3);
  }
}
