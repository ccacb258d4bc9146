# Zindian session model

A Dafny model of the `Zindian` class of the `zindi` package. A `Zindian` is a signed-in user of the Zindi platform. The user selects one challenge and then works inside it:

- reads their rank and remaining submissions;
- downloads the dataset;
- submits CSV files;
- reads the leaderboard and the submission board;
- creates, fills and disbands a team.

The model has six modules:

- `Replies` holds the values exchanged with the platform:
  - a server reply is either the payload of its `data` envelope or the `errors` entry;
  - a call either returns or raises;
  - the `Request` datatype lists every request the session issues.
- `Ordinal` holds the decimal rendering of a rank and the English ordinal suffix `my_rank` prints.
- `Manifest` holds the order-preserving de-duplication of the dataset manifest and the downloads it leads to.
- `SubmitRules` holds the rules of `submit`:
  - the extension test on a path;
  - padding of the comment list;
  - what happens to each (path, comment) pair;
  - which uploads a batch issues.
- `Teams` holds how team replies are classified, and where an invitation batch stops.
- `Session` holds the `Zindian` class itself.
  - Its fields are the selection flag, the cached challenge, the API root, the cached rank and the cached boards.
  - A ghost field `trace` records requests in order. It holds every request the session issues itself, and one entry per call of the helpers `join_challenge`, `get_challenges`, `download` and `upload`. It also holds the participations lookup that `user_on_lb` makes. Other requests made inside those helpers are not recorded. The trace lets the contracts say "no request is issued" and "these uploads, in this order".

Every challenge-scoped method of `Zindian` checks the flag first. `my_rank` and `remaining_subimissions` then return a sentinel; the other methods raise. Nothing is requested from the platform in either case. One exception: `download_dataset` creates the destination directory first, when it is missing and creation is asked for, even before it checks the flag (zindi/user.py:295-296). The trace records that step as `MakeDirs`. The invariant `Valid` says that the flag, the cached challenge and the API root are set together, and every method preserves it.

Server replies are parameters. So are the results of the package's helper functions: joining a challenge, searching, the index typed at the prompt, and the user's rank found on the leaderboard. Whether a path is a directory or a file is a parameter too.

## Model

| member | source | states |
|---|---|---|
| Replies.Contains | zindi/user.py:481-482 | Python's substring test `sub in s` holds exactly when `sub` occurs at some offset of `s` |
| Ordinal.NatToString | zindi/user.py:87-101 | the decimal numeral of a rank is non-empty and digits only; its last character is the units digit; from ten on, the one before it is the tens digit |
| Ordinal.ParseNatToString | zindi/user.py:87-101 | reading the numeral back gives the rank, so `str` loses nothing |
| Ordinal.IntToString | zindi/user.py:87-101 | `str(rank)` starts with a minus sign exactly for negative ranks and is digits after it; its last character is the units digit of the magnitude |
| Ordinal.SuffixOf | zindi/user.py:87-101 | the suffix picked from the numeral's last two characters is "st", "nd", "rd" or "th"; it is "th" whenever the next-to-last character is "1" or the last is not 1, 2 or 3 |
| Ordinal.RankText | zindi/user.py:85-103 | the text is "not yet" exactly for rank 0; any other rank reads as its numeral followed by the English ordinal suffix of its magnitude |
| Ordinal.SuffixOfIsEnglish | zindi/user.py:87-101 | the string test on the numeral picks the English suffix of every rank: "th" when the last two digits are 11, 12 or 13, otherwise "st", "nd" or "rd" after a last digit 1, 2 or 3, and "th" for the rest; negative ranks are judged by their digits |
| Ordinal.RankTextZero | zindi/user.py:85-86 | rank 0 reads "not yet" |
| Ordinal.RankTextFirst | zindi/user.py:87-91 | rank 1 reads "1st" |
| Ordinal.RankTextSecond | zindi/user.py:92-96 | rank 2 reads "2nd" |
| Ordinal.RankTextThird | zindi/user.py:97-101 | rank 3 reads "3rd" |
| Ordinal.RankTextFourth | zindi/user.py:102-103 | rank 4 reads "4th" |
| Ordinal.TeensTakeTh | zindi/user.py:87-101 | every rank whose last two digits are 11, 12 or 13 takes "th" |
| Ordinal.RankTextHundredEleventh | zindi/user.py:87-91 | 111 reads "111th" |
| Ordinal.RankTextHundredTwelfth | zindi/user.py:92-96 | 112 reads "112th" |
| Ordinal.RankTextHundredFirst | zindi/user.py:87-91 | 101 reads "101st" |
| Manifest.FirstOccurrences | zindi/user.py:304-307 | the de-duplicated manifest holds exactly the records of the manifest, none twice |
| Manifest.FirstOccurrencesOrder | zindi/user.py:304-307 | a record listed before another in the de-duplicated manifest first appears before it in the manifest |
| Manifest.FirstOccurrencesOnce | zindi/user.py:304-307 | each record of the manifest occurs exactly once in the output, and no other record occurs |
| Manifest.Dedup | zindi/user.py:304-307 | the append-if-absent loop computes `FirstOccurrences` |
| Manifest.DownloadPlan | zindi/user.py:310-317 | one download per record; the last one fetches `api/files/<filename>` of the last record into `destination/<filename>` (the request `DownloadOf` builds) |
| Manifest.DownloadPlanAt | zindi/user.py:310-317 | the k-th download fetches `api/files/<filename>` of the k-th record into `destination/<filename>` |
| Manifest.OneDownloadPerDistinctRecord | zindi/user.py:304-317 | downloading the de-duplicated manifest fetches every record of the manifest exactly once, in first-occurrence order, and nothing else |
| Manifest.DuplicateRecordDownloadedOnce | zindi/user.py:304-307 | a manifest holding one record twice around another de-duplicates to two records |
| SubmitRules.LastDot | zindi/user.py:348 | the position of the last dot, or -1 when the path has none; no dot follows it |
| SubmitRules.LastSegment | zindi/user.py:348 | `split(".")[-1]` is the dot-free suffix behind the last dot, or the whole path when there is no dot |
| SubmitRules.StripStart | zindi/user.py:348 | only leading white space is dropped, and the result does not start with white space |
| SubmitRules.StripEnd | zindi/user.py:348 | only trailing white space is dropped, and the result does not end with white space |
| SubmitRules.Strip | zindi/user.py:348 | `strip()` is never longer than its argument, and its result neither starts nor ends with white space |
| SubmitRules.StripIsInfix | zindi/user.py:348 | `strip()` keeps an infix framed by white space, and that infix starts and ends with non-white-space |
| SubmitRules.StripFramed | zindi/user.py:348 | an infix framed by white space that starts and ends with other characters is exactly what `strip()` returns |
| SubmitRules.Lower | zindi/user.py:348 | `lower()` keeps the length, maps each character by `LowerChar` and leaves no capital A to Z |
| SubmitRules.NormalisesToCsv | zindi/user.py:348-349 | a segment strips and lower-cases to "csv" exactly when it reads c/C, s/S, v/V with only white space around it |
| SubmitRules.IsCsvPath | zindi/user.py:348-349 | a path passes the extension test exactly when its last dot-separated segment reads "csv", in any letter case, between white space |
| SubmitRules.LastSegmentAfterDot | zindi/user.py:348 | the segment after a final dot is exactly the text behind it |
| SubmitRules.ExtensionRule | zindi/user.py:348-349 | a path `stem.ext` passes exactly when `ext`, stripped and lower-cased, is "csv" |
| SubmitRules.ExtensionShape | zindi/user.py:348-349 | for a path `stem.ext` the test reads only `ext`, whatever the stem |
| SubmitRules.LowerCsvExtension | zindi/user.py:348-349 | any stem followed by ".csv" passes |
| SubmitRules.UpperCsvExtension | zindi/user.py:348-349 | any stem followed by ".CSV" passes |
| SubmitRules.OtherExtensionRefused | zindi/user.py:348-349 | a three-character extension that does not start with "c" or "C" is refused |
| SubmitRules.TxtExtensionRefused | zindi/user.py:348-349 | any stem followed by ".txt" is refused |
| SubmitRules.DotlessShape | zindi/user.py:348-349 | a path with no dot is judged as a whole, since `split` returns the whole path |
| SubmitRules.DotlessCsvPasses | zindi/user.py:348-349 | a dotless path that reads "csv" in any letter case passes the test |
| SubmitRules.Blanks | zindi/user.py:345 | `[""] * n` has n entries, all empty |
| SubmitRules.Padded | zindi/user.py:343-345 | the padded comment list has at least as many entries as there are paths, keeps the given comments first and fills the rest with "" |
| SubmitRules.OutcomeOf | zindi/user.py:349-374 | a pair is reported as not a CSV exactly when the test refuses it, as missing exactly when it passes but names no file, and otherwise as rejected with the reply's `errors` or submitted with the reply's id |
| SubmitRules.UploadPlan | zindi/user.py:347-374 | a batch issues no more uploads than it has pairs, and every request it issues is an upload to the submission URL |
| SubmitRules.UploadPlanCount | zindi/user.py:347-374 | a batch issues exactly as many uploads as it has pairs whose path the rule accepts: one per accepted pair, none for the others |
| SubmitRules.OnlyFirstOfThree | zindi/user.py:347-374 | a three-pair batch whose first path alone is accepted makes exactly one upload, that of the first pair with its comment |
| SubmitRules.CsvTxtMissingBatch | zindi/user.py:347-374 | a batch like `["a.csv", "b.txt", "missing.csv"]` where only the first file exists makes exactly one upload attempt, for `a.csv` |
| SubmitRules.UploadPlanIff | zindi/user.py:347-374 | a request is among a batch's uploads iff it is the upload of some pair whose path the rule accepts, with that pair's comment |
| SubmitRules.SubmitUploadsIff | zindi/user.py:347-374 | with the CSV test, `submit` uploads pair i, with comment i, iff path i passes the extension test and names a file; no other upload is issued |
| Teams.ClassifyCreate | zindi/user.py:481-495 | a creation reply succeeds iff it has no `errors`; it is benign iff its `errors.base` contains "Leader can only be"; any other `errors` raises; an `errors` without `base` raises on the lookup |
| Teams.ClassifyInvite | zindi/user.py:529-540 | an invitation reply succeeds iff it has no `errors`; it is benign iff `errors.base` contains "is already invited"; any other `errors` raises |
| Teams.FirstFatal | zindi/user.py:525-536 | the first invitation whose reply raises, and all invitations before it do not raise |
| Teams.InvitePlan | zindi/user.py:525-527 | the invitations for the first n names are n posts, the last to the n-th name |
| Teams.InvitePlanAt | zindi/user.py:525-527 | the j-th invitation posted goes to the j-th name of the list |
| Teams.InvitesPosted | zindi/user.py:525-536 | a batch posts every invitation when none raises; otherwise it posts those up to and including the first that raises |
| Teams.LeaderNoticeExample | zindi/user.py:481-491 | the platform's leader notice makes a failed creation benign |
| Teams.InvitedNoticeExample | zindi/user.py:529-533 | the platform's "already invited" notice makes a failed invitation benign |
| Teams.DisbandOutcome | zindi/user.py:559-565 | a disband reply returns exactly when it has no `errors` and its message does not contain "errors"; an `errors` reply raises with it; a message containing "errors" raises on the lookup |
| Teams.DisbandMessageMentioningErrorsRaises | zindi/user.py:561-562 | the success message "no errors" raises: the test is a substring test on the string, and indexing that string by "errors" fails |
| Session.PublicRank | zindi/user.py:82 | the rank is 0 exactly when `public_rank` is absent, null or 0, and otherwise the reported value |
| Session.Decide | zindi/user.py:221-272 | the selection rule. A non-empty id selects directly, and a lookup with `errors` leaves the state alone. An empty search leaves the state alone. A fixed index that is not an int in [0, n) raises. A prompted answer below 0 leaves the state alone. Any index inside the list picks that entry, with the API root `competitions/<id>` |
| Session.InviteOutcome | zindi/user.py:525-540 | an invitation batch raises iff some invitation's reply raises |
| Session.CommentList.Pad | zindi/user.py:343-345 | the caller's comment list is padded in place to `Padded` |
| Session.Zindian.SignedIn | zindi/user.py:25-43 | a new session has no challenge selected and nothing cached, and has issued only the sign-in request |
| Session.Zindian.SignIn | zindi/user.py:25-43 | a sign-in reply with `errors` raises and yields no session; otherwise a fresh valid session with nothing selected, carrying the reply's user and token |
| Session.Zindian.WhichChallenge | zindi/user.py:46-59 | the id of the selected challenge, or None exactly when nothing is selected |
| Session.Zindian.MyRank | zindi/user.py:61-109 | unselected: returns 0 with no request. `errors`: raises. Otherwise returns and caches the public rank, 0 when absent or null, with its ordinal text |
| Session.Zindian.RemainingSubmissions | zindi/user.py:111-140 | unselected: returns None with no request. `errors`: raises. Otherwise returns the `today` count |
| Session.Zindian.SelectAChallenge | zindi/user.py:182-280 | the state changes only when `Decide` chooses. The flag, challenge and API root are set before the join, so a join that raises leaves the challenge selected. Otherwise nothing changes, and the call returns or raises as `Decide` says. A selection is never undone |
| Session.Zindian.DownloadDataset | zindi/user.py:283-321 | the destination is created first when it is missing and creation is asked for, even unselected. Unselected: raises with no other request. Otherwise the manifest is fetched and each distinct record is downloaded once, in first-occurrence order |
| Session.Zindian.DownloadAll | zindi/user.py:310-317 | the download loop issues one download per record, in list order |
| Session.Zindian.SubmitPair | zindi/user.py:348-374 | one pair: reported as not a CSV, as missing, as rejected with the reply's `errors`, or as submitted with the reply's id; an upload is issued only in the last two cases |
| Session.Zindian.SubmitPairs | zindi/user.py:347-374 | every pair is handled in order, a refused pair never stops the ones after it; the uploads are exactly the batch's upload plan |
| Session.Zindian.Submit | zindi/user.py:324-377 | unselected: raises, issues nothing and leaves the comment list alone. Otherwise the caller's comment list is padded in place and the uploads are those `SubmitUploadsIff` characterises; pair i's outcome depends on path i and reply i only |
| Session.Zindian.Leaderboard | zindi/user.py:380-417 | unselected: raises with no request. `errors`: raises and caches nothing. Otherwise the rows are cached first, then the user's participations are looked up; the rank found is cached, and a lookup that raises propagates its exception with the rank unchanged |
| Session.Zindian.SubmissionBoard | zindi/user.py:420-456 | unselected: raises with no request. `errors`: raises and caches nothing. Otherwise the rows are cached |
| Session.Zindian.CreateTeam | zindi/user.py:460-505 | unselected: raises with no request. A fatal creation reply raises after the one request. Otherwise the teammates are invited as by `TeamUp`, but only when the list is non-empty |
| Session.Zindian.TeamUp | zindi/user.py:508-544 | unselected: raises with no request. Otherwise invitations go out in list order, and the batch stops at the first reply that raises, raising its failure |
| Session.Zindian.InviteAll | zindi/user.py:525-540 | invitations go out in list order, and the batch stops at the first reply that raises, raising its failure |
| Session.Zindian.DisbandTeam | zindi/user.py:547-568 | unselected: raises with no request. Otherwise one delete is issued and the reply decides as `DisbandOutcome` says |

## Left out

- HTTP transport is not modelled. That covers `requests`, `.json()["data"]`, the User-Agent header, and the auth token sent as a header, form field or parameter. Each reply is an input value, and each request is a `Request` value in the ghost trace. Query parameters other than `per_page` are not recorded.
- The sign-in URL, the password and `getpass` are not modelled: credentials are not part of the state.
- All `print` output is left out, including the leaderboard and board printers. Only the returned-versus-raised distinction and the ordinal text are kept.
- The `zindi/utils.py` helpers are parameters, and zindi/utils.py is not part of this model:
  - `join_challenge` is a `JoinOutcome`.
  - `get_challenges` is the list of found challenges. The search query, kind, reward and active filters are not modelled.
  - `challenge_idx_selector` is the prompted answer.
  - `user_on_lb` is the `rankOnBoard` argument: the rank it finds, or the exception it raises (a `KeyError` when the challenge is not among the user's participations). Its one participations request is the `FetchParticipations` entry of the trace.
  - `join_challenge` may post twice, the second time with a secret code. The trace records one `Join` entry per call.
  - `download` and `upload` are requests in the trace. The model assumes they never raise.
- pandas `DataFrame.iloc` is a sequence index. A prompted answer at or beyond the end of the list is modelled as a raise (`PositionOutOfBounds`). The selector's own tests say it only returns -1 or an index inside the list, so this path should not occur in practice.
- `isinstance(fixed_index, int)` is the `FixedNotInt` case. Python also counts `True` and `False` as ints; the model does not distinguish booleans.
- The filesystem tests `os.path.isdir` and `os.path.isfile` are boolean parameters. `os.makedirs` is the `MakeDirs` entry of the trace.
- SubmitRules.LowerChar: folds only ASCII A to Z, whereas Python's `lower()` folds all of Unicode. `IsCsvPath` loses nothing by this: no character outside ASCII lower-cases to "c", "s" or "v", so `Lower(x) == "csv"` agrees with `x.lower() == "csv"`.
- Manifest.JoinPath: written as `dir + "/" + name`, so it does not model how `os.path.join` treats an absolute file name or a directory that already ends in a separator.
- Session.Zindian.DownloadAll: assumes `download` never raises. In the source an exception there ends the loop, so later files are not fetched, and it propagates out of `download_dataset` (zindi/user.py:310-317).
- Session.Zindian.SubmitPairs: assumes `upload` never raises. In the source an exception there ends the loop over the pairs and propagates out of `submit` (zindi/user.py:352-357).
- Session.Zindian.Submit: does not model that the default `comments=[]` is one list shared across calls. Padding it only ever adds "" entries, so no upload changes.
- Success payloads are typed, so a payload missing a key the code reads is not modelled. In the source each of these raises a `KeyError`:
  - an upload reply with neither `errors` nor `id`, inside the message;
  - a sign-in reply without `user.username`, inside the welcome message (zindi/user.py:175). The model signs in;
  - a `submissions/limits` reply without `today` (zindi/user.py:134). The model returns the quota;
  - a direct challenge lookup without `id`, inside the message (zindi/user.py:238). That happens after the selection is written and before the join; the model selects and joins;
  - a successful team-creation reply without `title` (zindi/user.py:494). That happens before any teammate is invited; the model returns `Created` and invites them.
- The code reads `public_rank` from `my_participation` and `today` from `submissions/limits`. The package's tests still expect a leaderboard-derived rank and a quota count; the model follows the code.
