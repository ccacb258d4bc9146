/**
 * The per-file rules of `submit`: which paths count as CSV submissions,
 * how the comment list is padded to the file list, and what happens to
 * each (path, comment) pair.
 */
module SubmitRules {
  import opened Replies

  /** Index of the last dot of `p`, or -1 when it has none. */
  function LastDot(p: string): (k: int)
    ensures -1 <= k < |p|
    ensures k >= 0 ==> p[k] == '.'
    ensures forall j :: k < j < |p| ==> p[j] != '.'
    decreases |p|
  {
    if p == [] then -1
    else if p[|p| - 1] == '.' then |p| - 1
    else LastDot(p[..|p| - 1])
  }

  /** What `split(".")[-1]` returns: the text after the last dot, or the
      whole path when it has no dot. */
  function LastSegment(p: string): (seg: string)
    ensures '.' !in seg
    ensures |seg| <= |p| && seg == p[|p| - |seg|..]
    ensures |seg| < |p| ==> p[|p| - |seg| - 1] == '.'
  {
    p[LastDot(p) + 1..]
  }

  /** The characters Python's `str.strip()` removes. */
  predicate IsSpace(c: char)
  {
    var n := c as int;
    n == 32 || 9 <= n <= 13 || 28 <= n <= 31 || n == 0x85 || n == 0xA0 || n == 0x1680
    || 0x2000 <= n <= 0x200A || n == 0x2028 || n == 0x2029 || n == 0x202F
    || n == 0x205F || n == 0x3000
  }

  predicate AllSpace(s: string)
  {
    forall i :: 0 <= i < |s| ==> IsSpace(s[i])
  }

  /** Drops leading white space. */
  function StripStart(s: string): (r: string)
    ensures |r| <= |s| && r == s[|s| - |r|..] && AllSpace(s[..|s| - |r|])
    ensures r == [] || !IsSpace(r[0])
    decreases |s|
  {
    if s != [] && IsSpace(s[0]) then
      var r := StripStart(s[1..]);
      assert AllSpace(s[..|s| - |r|]) by {
        forall i | 0 <= i < |s| - |r| ensures IsSpace(s[i]) {
          if i > 0 {
            assert s[i] == s[1..][..|s| - 1 - |r|][i - 1];
          }
        }
      }
      r
    else s
  }

  /** Drops trailing white space. */
  function StripEnd(s: string): (r: string)
    ensures |r| <= |s| && r == s[..|r|] && AllSpace(s[|r|..])
    ensures r == [] || !IsSpace(r[|r| - 1])
    decreases |s|
  {
    if s != [] && IsSpace(s[|s| - 1]) then
      var r := StripEnd(s[..|s| - 1]);
      assert AllSpace(s[|r|..]) by {
        forall i | |r| <= i < |s| ensures IsSpace(s[i]) {
          if i < |s| - 1 {
            assert s[i] == s[..|s| - 1][|r|..][i - |r|];
          }
        }
      }
      r
    else s
  }

  /** Dropping white space from the front and then from the back of `s`
      leaves an infix of `s` framed by white space. */
  lemma SpaceFramedInfix(s: string, t: string, r: string)
    requires |t| <= |s| && t == s[|s| - |t|..] && AllSpace(s[..|s| - |t|])
    requires |r| <= |t| && r == t[..|r|] && AllSpace(t[|r|..])
    ensures exists a, b :: 0 <= a <= b <= |s| && r == s[a..b] && AllSpace(s[..a]) && AllSpace(s[b..])
  {
    var a := |s| - |t|;
    var b := a + |r|;
    assert s[a..b] == r;
    assert s[b..] == t[|r|..];
  }

  /** Python's `str.strip()`: never longer than its argument, and neither
      starts nor ends with white space. */
  function Strip(s: string): (r: string)
    ensures |r| <= |s|
    ensures r == [] || (!IsSpace(r[0]) && !IsSpace(r[|r| - 1]))
  {
    var t := StripStart(s);
    var r := StripEnd(t);
    assert r != [] ==> r[0] == t[0];
    r
  }

  /** `Strip` keeps an infix of its argument and removes only white space,
      up to the first and from the last character that is not white space. */
  lemma StripIsInfix(s: string)
    ensures exists a, b :: 0 <= a <= b <= |s| && Strip(s) == s[a..b] && AllSpace(s[..a]) && AllSpace(s[b..])
  {
    SpaceFramedInfix(s, StripStart(s), Strip(s));
  }

  /** Lower-cases the ASCII letters A to Z. */
  function LowerChar(c: char): char
  {
    if 'A' <= c <= 'Z' then (c as int + 32) as char else c
  }

  /** `str.lower()` on ASCII: same length, every capital A to Z replaced
      by its small letter, every other character kept. */
  function Lower(s: string): (r: string)
    ensures |r| == |s|
    ensures forall i :: 0 <= i < |s| ==> r[i] == LowerChar(s[i])
    ensures forall i :: 0 <= i < |r| ==> !('A' <= r[i] <= 'Z')
  {
    if s == [] then [] else [LowerChar(s[0])] + Lower(s[1..])
  }

  /** "csv" in any letter case, with nothing but white space around it. */
  predicate CsvShaped(seg: string)
  {
    exists a :: 0 <= a && a + 3 <= |seg| && AllSpace(seg[..a]) && AllSpace(seg[a + 3..])
      && seg[a] in "cC" && seg[a + 1] in "sS" && seg[a + 2] in "vV"
  }

  lemma CsvShapedAt(seg: string, a: nat)
    requires a + 3 <= |seg| && AllSpace(seg[..a]) && AllSpace(seg[a + 3..])
    requires seg[a] in "cC" && seg[a + 1] in "sS" && seg[a + 2] in "vV"
    ensures CsvShaped(seg)
  {
  }

  /** A three-character segment that does not start with "c" or "C" does
      not read "csv". */
  lemma NotShapedAt(seg: string)
    requires |seg| == 3 && seg[0] !in "cC"
    ensures !CsvShaped(seg)
  {
    forall a | 0 <= a && a + 3 <= |seg|
      ensures seg[a] !in "cC"
    {
      assert a == 0;
    }
  }

  /** Leading white space up to the first other character is what
      `StripStart` drops. */
  lemma {:induction false} StripStartAt(s: string, a: nat)
    requires a <= |s| && AllSpace(s[..a]) && (a < |s| ==> !IsSpace(s[a]))
    ensures StripStart(s) == s[a..]
    decreases a
  {
    if a > 0 {
      assert IsSpace(s[..a][0]);
      assert s[1..][..a - 1] == s[1..a];
      StripStartAt(s[1..], a - 1);
    }
  }

  /** Trailing white space after the last other character is what
      `StripEnd` drops. */
  lemma {:induction false} StripEndAt(s: string, b: nat)
    requires b <= |s| && AllSpace(s[b..]) && (b > 0 ==> !IsSpace(s[b - 1]))
    ensures StripEnd(s) == s[..b]
    decreases |s| - b
  {
    if b < |s| {
      assert IsSpace(s[b..][|s| - 1 - b]);
      var init := s[..|s| - 1];
      assert init[b..] == s[b..|s| - 1];
      assert init[..b] == s[..b];
      StripEndAt(init, b);
    }
  }

  /** A segment that strips and lower-cases to "csv" reads "csv" in some
      letter case between white space. */
  lemma NormalisedIsShaped(seg: string)
    requires Lower(Strip(seg)) == "csv"
    ensures CsvShaped(seg)
  {
    var r := Strip(seg);
    StripIsInfix(seg);
    var a, b :| 0 <= a <= b <= |seg| && r == seg[a..b] && AllSpace(seg[..a]) && AllSpace(seg[b..]);
    assert |r| == 3 && b == a + 3;
    assert seg[a] in "cC" && seg[a + 1] in "sS" && seg[a + 2] in "vV" by {
      var low := Lower(r);
      assert LowerChar(r[0]) == low[0] == 'c';
      assert LowerChar(r[1]) == low[1] == 's';
      assert LowerChar(r[2]) == low[2] == 'v';
      assert seg[a] == r[0] && seg[a + 1] == r[1] && seg[a + 2] == r[2];
      LowerCharOf(seg[a], 'c');
      LowerCharOf(seg[a + 1], 's');
      LowerCharOf(seg[a + 2], 'v');
    }
    CsvShapedAt(seg, a);
  }

  /** The characters `LowerChar` maps to a small letter: that letter and
      its capital. */
  lemma LowerCharOf(c: char, small: char)
    requires 'a' <= small <= 'z' && LowerChar(c) == small
    ensures c == small || c as int == small as int - 32
  {
  }

  /** Stripping leaves exactly the infix that white space frames and that
      starts and ends with other characters. */
  lemma StripFramed(s: string, a: nat, b: nat)
    requires a < b <= |s| && AllSpace(s[..a]) && AllSpace(s[b..])
    requires !IsSpace(s[a]) && !IsSpace(s[b - 1])
    ensures Strip(s) == s[a..b]
  {
    var t := s[a..];
    assert StripStart(s) == t by {
      StripStartAt(s, a);
    }
    assert StripEnd(t) == s[a..b] by {
      assert t[b - a..] == s[b..];
      assert t[b - a - 1] == s[b - 1];
      StripEndAt(t, b - a);
      assert t[..b - a] == s[a..b];
    }
  }

  /** "csv" in any letter case lower-cases to "csv". */
  lemma LowerCsv(word: string)
    requires |word| == 3 && word[0] in "cC" && word[1] in "sS" && word[2] in "vV"
    ensures Lower(word) == "csv"
  {
    var low := Lower(word);
    assert low[0] == 'c' && low[1] == 's' && low[2] == 'v';
  }

  /** A segment reading "csv" in any letter case between white space
      strips and lower-cases to "csv". */
  lemma ShapedNormalises(seg: string, a: nat)
    requires a + 3 <= |seg| && AllSpace(seg[..a]) && AllSpace(seg[a + 3..])
    requires seg[a] in "cC" && seg[a + 1] in "sS" && seg[a + 2] in "vV"
    ensures Lower(Strip(seg)) == "csv"
  {
    StripFramed(seg, a, a + 3);
    LowerCsv(seg[a..a + 3]);
  }

  /** Every segment reading "csv" between white space normalises to "csv". */
  lemma ShapedIsNormalised(seg: string)
    requires CsvShaped(seg)
    ensures Lower(Strip(seg)) == "csv"
  {
    var a :| 0 <= a && a + 3 <= |seg| && AllSpace(seg[..a]) && AllSpace(seg[a + 3..])
      && seg[a] in "cC" && seg[a + 1] in "sS" && seg[a + 2] in "vV";
    ShapedNormalises(seg, a);
  }

  /** Stripping and lower-casing gives "csv" exactly for a segment that
      reads "csv" in any letter case between white space. */
  lemma NormalisesToCsv(seg: string)
    ensures Lower(Strip(seg)) == "csv" <==> CsvShaped(seg)
  {
    if Lower(Strip(seg)) == "csv" {
      NormalisedIsShaped(seg);
    } else if CsvShaped(seg) {
      ShapedIsNormalised(seg);
    }
  }

  /** The extension test of `submit`: the last dot-separated segment,
      stripped and lower-cased, is "csv". */
  predicate IsCsvPath(path: string)
    ensures IsCsvPath(path) <==> CsvShaped(LastSegment(path))
  {
    NormalisesToCsv(LastSegment(path));
    Lower(Strip(LastSegment(path))) == "csv"
  }

  /** The segment after a final dot is exactly the text behind that dot. */
  lemma LastSegmentAfterDot(stem: string, ext: string)
    requires '.' !in ext
    ensures LastSegment(stem + "." + ext) == ext
  {
    var p := stem + "." + ext;
    assert p[|stem|] == '.';
    assert forall j :: |stem| < j < |p| ==> p[j] == ext[j - |stem| - 1];
    assert LastDot(p) == |stem|;
    assert p[|stem| + 1..] == ext;
  }

  /** A path `stem.ext` counts as a submission exactly when its extension,
      stripped of white space and lower-cased, is "csv"; the stem plays no part. */
  lemma ExtensionRule(stem: string, ext: string)
    requires '.' !in ext
    ensures IsCsvPath(stem + "." + ext) <==> Lower(Strip(ext)) == "csv"
  {
    var p := stem + "." + ext;
    LastSegmentAfterDot(stem, ext);
    assert LastSegment(p) == ext;
  }

  /** For a path `stem.ext`, the extension test reads only `ext`. */
  lemma ExtensionShape(stem: string, ext: string)
    requires '.' !in ext
    ensures IsCsvPath(stem + "." + ext) <==> CsvShaped(ext)
  {
    LastSegmentAfterDot(stem, ext);
  }

  /** Lower-case "csv" after the last dot passes. */
  lemma LowerCsvExtension(stem: string)
    ensures IsCsvPath(stem + ".csv")
  {
    assert stem + ".csv" == stem + "." + "csv";
    ExtensionShape(stem, "csv");
    CsvShapedAt("csv", 0);
  }

  /** Upper-case "CSV" after the last dot passes as well. */
  lemma UpperCsvExtension(stem: string)
    ensures IsCsvPath(stem + ".CSV")
  {
    assert stem + ".CSV" == stem + "." + "CSV";
    ExtensionShape(stem, "CSV");
    CsvShapedAt("CSV", 0);
  }

  /** An extension of three characters that does not start with "c" or
      "C" is refused. */
  lemma OtherExtensionRefused(stem: string, ext: string)
    requires '.' !in ext && |ext| == 3 && ext[0] !in "cC"
    ensures !IsCsvPath(stem + "." + ext)
  {
    ExtensionShape(stem, ext);
    NotShapedAt(ext);
  }

  /** "txt" after the last dot is refused. */
  lemma TxtExtensionRefused(stem: string)
    ensures !IsCsvPath(stem + ".txt")
  {
    assert stem + ".txt" == stem + "." + "txt";
    OtherExtensionRefused(stem, "txt");
  }

  /** A path without a dot is judged as a whole. */
  lemma DotlessShape(path: string)
    requires '.' !in path
    ensures IsCsvPath(path) <==> CsvShaped(path)
  {
    assert LastDot(path) == -1;
  }

  /** A path with no dot at all is judged as a whole: a file named "csv",
      in any letter case, passes the extension test. */
  lemma DotlessCsvPasses(path: string)
    requires |path| == 3 && path[0] in "cC" && path[1] in "sS" && path[2] in "vV"
    ensures IsCsvPath(path)
  {
    assert CsvShaped(path) by {
      CsvShapedAt(path, 0);
    }
    assert '.' !in path by {
      assert forall i :: 0 <= i < 3 ==> path[i] != '.';
    }
    DotlessShape(path);
  }

  /** `[""] * n`. */
  function Blanks(n: nat): (r: seq<string>)
    ensures |r| == n && forall i :: 0 <= i < n ==> r[i] == ""
  {
    seq(n, _ => "")
  }

  /** The comment list after padding: as long as the path list at least,
      the given comments first, then empty strings. */
  function Padded(comments: seq<string>, n: nat): (r: seq<string>)
    ensures |r| == if |comments| < n then n else |comments|
    ensures forall i :: 0 <= i < |r| ==> r[i] == if i < |comments| then comments[i] else ""
  {
    if |comments| < n then comments + Blanks(n - |comments|) else comments
  }

  /** What happens to one (path, comment) pair. */
  datatype PairOutcome =
    | NotCsv                      // wrong extension: printed, no request
    | FileMissing                 // no such file: printed, no request
    | Rejected(errors: ErrorBody) // uploaded, the reply carried `errors`
    | Submitted(id: string)       // uploaded, the reply carried the submission id

  /** What happens to one pair; `accepts` is the extension test, `isFile`
      says whether the file exists. */
  function OutcomeOf(path: string, accepts: string -> bool, isFile: string -> bool, reply: Reply<string>): (r: PairOutcome)
    ensures r == NotCsv <==> !accepts(path)
    ensures r == FileMissing <==> accepts(path) && !isFile(path)
    ensures (r.Rejected? || r.Submitted?) <==> accepts(path) && isFile(path)
    ensures r.Submitted? ==> reply == Ok(r.id)
    ensures r.Rejected? ==> reply == Err(r.errors)
  {
    if !accepts(path) then NotCsv
    else if !isFile(path) then FileMissing
    else match reply
      case Ok(id) => Submitted(id)
      case Err(e) => Rejected(e)
  }

  /** The upload rule of a batch: a pair is uploaded when its path passes
      the extension test `accepts` and `isFile` says the file exists. */
  function UploadRule(accepts: string -> bool, isFile: string -> bool): (attempt: string -> bool)
    ensures forall p :: attempt(p) <==> accepts(p) && isFile(p)
  {
    p => accepts(p) && isFile(p)
  }

  /** The request issued for one pair: an upload when `attempt` accepts its path. */
  function PairUpload(url: string, path: string, comment: string, attempt: string -> bool): seq<Request>
  {
    if attempt(path) then [Upload(url, path, comment)] else []
  }

  /** Under the upload rule, a pair is uploaded exactly when its path passes
      the extension test and names an existing file. */
  lemma PairUploadRule(url: string, path: string, comment: string, accepts: string -> bool, isFile: string -> bool)
    ensures PairUpload(url, path, comment, UploadRule(accepts, isFile)) ==
      if accepts(path) && isFile(path) then [Upload(url, path, comment)] else []
  {
  }

  /** The uploads of a batch, in the order of the pairs; `attempt` says
      which paths are uploaded. */
  function UploadPlan(url: string, paths: seq<string>, comments: seq<string>, attempt: string -> bool): (plan: seq<Request>)
    requires |comments| >= |paths|
    ensures |plan| <= |paths|
    ensures forall q :: q in plan ==> q.Upload? && q.url == url
    decreases |paths|
  {
    if paths == [] then []
    else
      var k := |paths| - 1;
      UploadPlan(url, paths[..k], comments, attempt) + PairUpload(url, paths[k], comments[k], attempt)
  }

  /** Handling one more pair extends the plan by that pair's upload, if any. */
  lemma UploadPlanStep(url: string, paths: seq<string>, comments: seq<string>, attempt: string -> bool, i: nat)
    requires i < |paths| <= |comments|
    ensures UploadPlan(url, paths[..i + 1], comments, attempt) ==
      UploadPlan(url, paths[..i], comments, attempt) + PairUpload(url, paths[i], comments[i], attempt)
  {
    assert paths[..i + 1][..i] == paths[..i];
  }

  /** Pair `i` of the batch is uploaded, by request `q`. */
  predicate UploadedPair(url: string, paths: seq<string>, comments: seq<string>, attempt: string -> bool, i: int, q: Request)
    requires |comments| >= |paths|
  {
    0 <= i < |paths| && attempt(paths[i]) && q == Upload(url, paths[i], comments[i])
  }

  /** A batch issues an upload for a pair exactly when the rule accepts its
      path, with that pair's comment; a refused pair never stops the pairs
      after it. */
  lemma {:induction false} UploadPlanIff(url: string, paths: seq<string>, comments: seq<string>, attempt: string -> bool, q: Request)
    requires |comments| >= |paths|
    ensures q in UploadPlan(url, paths, comments, attempt) <==>
      exists i :: UploadedPair(url, paths, comments, attempt, i, q)
    decreases |paths|
  {
    if paths != [] {
      var k := |paths| - 1;
      var init := paths[..k];
      UploadPlanIff(url, init, comments, attempt, q);
      var tail := PairUpload(url, paths[k], comments[k], attempt);
      assert UploadPlan(url, paths, comments, attempt) == UploadPlan(url, init, comments, attempt) + tail;
      assert q in tail <==> UploadedPair(url, paths, comments, attempt, k, q);
      forall i | 0 <= i < k
        ensures UploadedPair(url, init, comments, attempt, i, q) <==> UploadedPair(url, paths, comments, attempt, i, q)
      {
        assert init[i] == paths[i];
      }
      if q in UploadPlan(url, init, comments, attempt) {
        var i :| UploadedPair(url, init, comments, attempt, i, q);
        assert UploadedPair(url, paths, comments, attempt, i, q);
      }
    }
  }

  /** A batch issues exactly one upload per pair the rule accepts and none
      for the others: the plan is as long as the set of accepted pairs. */
  lemma {:induction false} UploadPlanCount(url: string, paths: seq<string>, comments: seq<string>, attempt: string -> bool)
    requires |comments| >= |paths|
    ensures |UploadPlan(url, paths, comments, attempt)| == |set i | 0 <= i < |paths| && attempt(paths[i])|
    decreases |paths|
  {
    if paths != [] {
      var k := |paths| - 1;
      var init := paths[..k];
      UploadPlanCount(url, init, comments, attempt);
      var before := set i | 0 <= i < |init| && attempt(init[i]);
      var after := set i | 0 <= i < |paths| && attempt(paths[i]);
      assert before == set i | 0 <= i < k && attempt(paths[i]);
      if attempt(paths[k]) {
        assert after == before + {k};
      } else {
        assert after == before;
      }
    }
  }

  /** A three-pair batch whose first path alone is accepted makes exactly one
      upload, that of the first pair. */
  lemma OnlyFirstOfThree(url: string, paths: seq<string>, comments: seq<string>, attempt: string -> bool)
    requires |paths| == 3 && |comments| >= 3
    requires attempt(paths[0]) && !attempt(paths[1]) && !attempt(paths[2])
    ensures UploadPlan(url, paths, comments, attempt) == [Upload(url, paths[0], comments[0])]
  {
    UploadPlanStep(url, paths, comments, attempt, 0);
    UploadPlanStep(url, paths, comments, attempt, 1);
    UploadPlanStep(url, paths, comments, attempt, 2);
    assert paths[..3] == paths;
  }

  /** A batch such as `["a.csv", "b.txt", "missing.csv"]`, where only the
      first CSV path names an existing file, makes exactly one upload: the
      text file is refused by its extension and the missing file by the file
      test. */
  lemma CsvTxtMissingBatch(url: string, present: string, text: string, missing: string, comments: seq<string>, isFile: string -> bool)
    requires |comments| >= 3 && isFile(present + ".csv") && !isFile(missing + ".csv")
    ensures UploadPlan(url, [present + ".csv", text + ".txt", missing + ".csv"], comments, UploadRule(IsCsvPath, isFile)) ==
      [Upload(url, present + ".csv", comments[0])]
  {
    LowerCsvExtension(present);
    TxtExtensionRefused(text);
    OnlyFirstOfThree(url, [present + ".csv", text + ".txt", missing + ".csv"], comments, UploadRule(IsCsvPath, isFile));
  }

  /** The upload rule of `submit` spelled out: request `q` is issued exactly
      when it uploads some pair whose path passes the extension test and
      names an existing file, with that pair's comment. */
  lemma SubmitUploadsIff(url: string, paths: seq<string>, comments: seq<string>, isFile: string -> bool, q: Request)
    requires |comments| >= |paths|
    ensures q in UploadPlan(url, paths, comments, UploadRule(IsCsvPath, isFile)) <==>
      exists i :: 0 <= i < |paths| && IsCsvPath(paths[i]) && isFile(paths[i]) && q == Upload(url, paths[i], comments[i])
  {
    var rule := UploadRule(IsCsvPath, isFile);
    UploadPlanIff(url, paths, comments, rule, q);
    if q in UploadPlan(url, paths, comments, rule) {
      var i :| UploadedPair(url, paths, comments, rule, i, q);
      assert IsCsvPath(paths[i]) && isFile(paths[i]);
    } else {
      forall i | 0 <= i < |paths| && IsCsvPath(paths[i]) && isFile(paths[i])
        ensures q != Upload(url, paths[i], comments[i])
      {
        assert rule(paths[i]);
        assert !UploadedPair(url, paths, comments, rule, i, q);
      }
    }
  }
}
