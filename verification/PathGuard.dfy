/**
 The two path guards in front of the tunnel (remote.go) and in front of the
 home endpoint (local.go): a path must be in clean form, and it must sit under
 an allowed prefix. The theorems say what the pair of string tests means for
 path segments, and what a backend that follows section 5.2.4 of RFC 3986 makes
 of a path that got through.
 */
module PathGuard {
  import opened Wrappers
  import opened PathClean

  predicate Normalized(p: string) {
    p != "" && Cleaned(p) == p
  }

  method PathIsNormalized(p: string) returns (ok: bool)
    ensures ok <==> Normalized(p)
  {
    if p == "" {
      return false;
    }
    var cleaned := Clean(p);
    return cleaned == p;
  }

  /** One trailing slash removed, as strings.TrimSuffix(p, "/") does. */
  function TrimSlash(p: string): string {
    if p != "" && p[|p| - 1] == '/' then p[..|p| - 1] else p
  }

  predicate Matches(prefix: string, path: string) {
    path == prefix || TrimSlash(prefix) + "/" <= path
  }

  ghost predicate Allowed(prefixes: seq<string>, path: string) {
    prefixes == [] || exists prefix | prefix in prefixes :: Matches(prefix, path)
  }

  method PathAllowed(prefixes: seq<string>, path: string) returns (ok: bool)
    ensures ok <==> Allowed(prefixes, path)
  {
    if |prefixes| == 0 {
      return true;
    }
    for i := 0 to |prefixes|
      invariant forall j | 0 <= j < i :: !Matches(prefixes[j], path)
    {
      if Matches(prefixes[i], path) {
        return true;
      }
    }
    return false;
  }

  // ----- Segments as strings.Split sees them -----

  /** Everything between slashes, empty pieces included. */
  function Pieces(p: string): (pieces: seq<string>)
    ensures pieces != []
    decreases |p|
  {
    var e := SegmentEnd(p, 0);
    if e == |p| then [p] else [p[..e]] + Pieces(p[e + 1..])
  }

  predicate RealSegment(segment: string) {
    Plain(segment) && segment != "." && segment != ".."
  }

  ghost predicate AllReal(segments: seq<string>) {
    forall i | 0 <= i < |segments| :: RealSegment(segments[i])
  }

  lemma {:induction false} PiecesAppend(front: string, back: string)
    ensures Pieces(front + "/" + back) == Pieces(front) + Pieces(back)
    decreases |front|
  {
    var p := front + "/" + back;
    EndOfFront(front, 0, "/" + back);
    assert p == front + ("/" + back);
    var e := SegmentEnd(front, 0);
    if e == |front| {
      assert p[e + 1..] == back;
      assert p[..e] == front;
    } else {
      assert p[..e] == front[..e];
      assert p[e + 1..] == front[e + 1..] + "/" + back;
      PiecesAppend(front[e + 1..], back);
    }
  }

  lemma {:induction false} PiecesOfJoin(stack: seq<string>)
    requires stack != [] && AllReal(stack)
    ensures Pieces(Join(stack)) == stack
  {
    var rest, last := stack[..|stack| - 1], stack[|stack| - 1];
    assert Pieces(last) == [last] by {
      assert SegmentEnd(last, 0) == |last|;
    }
    if rest != [] {
      PiecesOfJoin(rest);
      PiecesAppend(Join(rest), last);
    }
  }

  lemma {:induction false} JoinAppend(front: seq<string>, back: seq<string>)
    requires front != [] && back != []
    ensures Join(front + back) == Join(front) + "/" + Join(back)
    decreases |back|
  {
    var rest, last := back[..|back| - 1], back[|back| - 1];
    assert front + back == (front + rest) + [last];
    assert back == rest + [last];
    JoinPush(front + rest, last);
    JoinPush(rest, last);
    if rest == [] {
      assert front + rest == front;
    } else {
      JoinAppend(front, rest);
      assert Join(front) + "/" + Join(rest) + "/" + last == Join(front) + "/" + (Join(rest) + "/" + last);
    }
  }

  lemma {:induction false} JoinOfPieces(p: string)
    ensures Join(Pieces(p)) == p
    decreases |p|
  {
    var e := SegmentEnd(p, 0);
    if e < |p| {
      JoinOfPieces(p[e + 1..]);
      JoinAppend([p[..e]], Pieces(p[e + 1..]));
      assert p == p[..e] + "/" + p[e + 1..];
    }
  }

  /** A clean rooted path is "/" followed by its segments, none of them special. */
  lemma NormalizedRootedForm(p: string)
    requires IsRooted(p) && Normalized(p)
    ensures AllReal(Segments(p))
    ensures p == "/" + Join(Segments(p))
    ensures p != "/" ==> Segments(p) != [] && Pieces(p[1..]) == Segments(p)
  {
    var stack := CleanedIsRender(p);
    SegmentsOfRender(true, stack);
    assert p == Render(true, stack);
    assert p[1..] == Join(stack);
    if stack != [] {
      PiecesOfJoin(stack);
    }
  }

  lemma RealSegmentsAreNormalized(segments: seq<string>)
    requires AllReal(segments)
    ensures Normalized("/" + Join(segments)) && IsRooted("/" + Join(segments))
    ensures Segments("/" + Join(segments)) == segments
  {
    assert Ups(segments) == 0;
    assert Render(true, segments) == "/" + Join(segments);
    CleanedRender(true, segments);
    SegmentsOfRender(true, segments);
  }

  lemma RootIsNormalized()
    ensures Normalized("/") && Segments("/") == []
  {
    RealSegmentsAreNormalized([]);
    assert "/" + Join([]) == "/";
  }

  /** The meaning of the clean-form test on a rooted path, in terms of its raw pieces. */
  lemma NormalizedMeansRealPieces(p: string)
    requires IsRooted(p)
    ensures Normalized(p) <==> p == "/" || AllReal(Pieces(p[1..]))
  {
    RootIsNormalized();
    if p != "/" {
      if Normalized(p) {
        NormalizedRootedForm(p);
      }
      if AllReal(Pieces(p[1..])) {
        RealSegmentsAreNormalized(Pieces(p[1..]));
        JoinOfPieces(p[1..]);
        assert p == "/" + p[1..];
      }
    }
  }

  // ----- What the backend makes of the path -----

  function DropLastSegment(output: string): string
    decreases |output|
  {
    if output == "" then ""
    else if output[|output| - 1] == '/' then output[..|output| - 1]
    else DropLastSegment(output[..|output| - 1])
  }

  /** remove_dot_segments, section 5.2.4 of RFC 3986, steps 2A to 2E in order. */
  function RemoveDots(input: string, output: string): string
    decreases |input|
  {
    if input == "" then output
    else if "../" <= input then RemoveDots(input[3..], output)
    else if "./" <= input then RemoveDots(input[2..], output)
    else if "/./" <= input then RemoveDots(input[2..], output)
    else if input == "/." then RemoveDots("/", output)
    else if "/../" <= input then RemoveDots(input[3..], DropLastSegment(output))
    else if input == "/.." then RemoveDots("/", DropLastSegment(output))
    else if input == "." || input == ".." then output
    else
      var e := SegmentEnd(input, 1);
      RemoveDots(input[e..], output + input[..e])
  }

  function RemoveDotSegments(path: string): string {
    RemoveDots(path, "")
  }

  /** Step 2E moves a real first segment to the output. */
  lemma RemoveDotsMoves(first: string, tail: string, output: string, result: string)
    requires RealSegment(first)
    requires tail != "" ==> tail[0] == '/'
    requires RemoveDots(tail, output + ("/" + first)) == result
    ensures RemoveDots("/" + first + tail, output) == result
  {
    var front := "/" + first;
    var input := front + tail;
    EndOfFront(front, 1, tail);
    assert SegmentEnd(front, 1) == |front| by {
      assert forall i | 1 <= i < |front| :: front[i] == first[i - 1];
    }
    assert input[..|front|] == front && input[|front|..] == tail;
    NoDotCase(first, tail);
  }

  /** A slash in front of every segment. */
  function Slashed(segments: seq<string>): string {
    if segments == [] then "" else "/" + segments[0] + Slashed(segments[1..])
  }

  lemma {:induction false} SlashedIsJoin(segments: seq<string>)
    requires segments != []
    ensures Slashed(segments) == "/" + Join(segments)
    decreases |segments|
  {
    if |segments| > 1 {
      SlashedIsJoin(segments[1..]);
      JoinAppend([segments[0]], segments[1..]);
      assert segments == [segments[0]] + segments[1..];
    } else {
      assert Slashed(segments[1..]) == "";
    }
  }

  lemma SlashedFirst(segments: seq<string>) returns (first: string, tail: string)
    requires segments != [] && AllReal(segments)
    ensures first == segments[0] && tail == Slashed(segments[1..])
    ensures Slashed(segments) == "/" + first + tail
    ensures RealSegment(first) && (tail != "" ==> tail[0] == '/')
  {
    first, tail := segments[0], Slashed(segments[1..]);
  }

  lemma {:induction false} RemoveDotsKeepsReal(segments: seq<string>, text: string, output: string)
    requires AllReal(segments) && text == Slashed(segments)
    ensures RemoveDots(text, output) == output + text
    decreases |segments|
  {
    if segments == [] {
      assert output + "" == output;
    } else {
      var first, tail := SlashedFirst(segments);
      RemoveDotsKeepsReal(segments[1..], tail, output + ("/" + first));
      Reassociate(output, "/" + first, tail);
      RemoveDotsMoves(first, tail, output, output + text);
    }
  }

  /** A real first segment is never taken for one of the dot cases. */
  lemma NoDotCase(first: string, tail: string)
    requires RealSegment(first)
    requires tail != "" ==> tail[0] == '/'
    ensures var input := "/" + first + tail;
            && !("../" <= input) && !("./" <= input) && !("/./" <= input) && !("/../" <= input)
            && input != "/." && input != "/.." && input != "." && input != ".."
  {
    var input := "/" + first + tail;
    assert forall i | 0 <= i < |first| :: input[i + 1] == first[i] && first[i] != '/';
    assert |first| + 1 < |input| ==> input[|first| + 1] == '/';
    if |first| == 1 {
      assert first == [first[0]];
      assert input[1] != '.';
    } else if |first| == 2 {
      assert first == [first[0], first[1]];
      assert input[1] != '.' || input[2] != '.';
      assert input[2] != '/';
    } else {
      assert input[2] != '/' && input[3] != '/';
    }
  }

  /** A backend that resolves dot segments sees the very path that was checked. */
  lemma NormalizedSurvivesResolution(path: string)
    requires IsRooted(path) && Normalized(path)
    ensures RemoveDotSegments(path) == path
  {
    NormalizedRootedForm(path);
    if Segments(path) == [] {
      assert path == "/";
      assert RemoveDots("", "/") == "/";
      assert SegmentEnd("/", 1) == 1;
    } else {
      SlashedIsJoin(Segments(path));
      RemoveDotsKeepsReal(Segments(path), path, "");
    }
  }

  // ----- What the prefix test means -----

  /** The prefix's segments lead the path's; strictly if the prefix ends in a slash. */
  predicate Covers(prefix: string, path: string) {
    || (Normalized(prefix) && Segments(prefix) <= Segments(path))
    || (&& prefix != "//"
        && TrimSlash(prefix) != prefix
        && Normalized(TrimSlash(prefix))
        && Segments(TrimSlash(prefix)) < Segments(path))
  }

  /** Cutting a clean rooted path in front of an inner slash leaves a clean path. */
  lemma CutNormalized(path: string, k: nat)
    requires IsRooted(path) && Normalized(path)
    requires 0 < k < |path| && path[k] == '/'
    ensures Normalized(path[..k]) && path[..k] != "/"
    ensures Segments(path[..k]) < Segments(path)
  {
    var front, back := path[1..k], path[k + 1..];
    assert path[1..] == front + "/" + back;
    PiecesAppend(front, back);
    NormalizedRootedForm(path);
    assert Pieces(front) + Pieces(back) == Segments(path);
    assert AllReal(Pieces(front)) by {
      assert forall i | 0 <= i < |Pieces(front)| :: Pieces(front)[i] == Segments(path)[i];
    }
    JoinOfPieces(front);
    RealSegmentsAreNormalized(Pieces(front));
    assert path[..k] == "/" + front;
    assert RealSegment(Pieces(front)[0]);
  }

  lemma JoinExtension(shorter: seq<string>, longer: seq<string>)
    requires shorter != [] && shorter < longer
    ensures "/" + Join(shorter) + "/" <= "/" + Join(longer)
  {
    var back := longer[|shorter|..];
    assert longer == shorter + back;
    JoinAppend(shorter, back);
    assert "/" + Join(longer) == ("/" + Join(shorter) + "/") + Join(back);
  }

  /** A clean rooted path followed by a slash starts every clean path that extends it. */
  lemma ExtensionHasPrefix(shorter: string, path: string)
    requires IsRooted(shorter) && Normalized(shorter) && shorter != "/"
    requires IsRooted(path) && Normalized(path)
    requires Segments(shorter) < Segments(path)
    ensures shorter + "/" <= path
  {
    NormalizedRootedForm(shorter);
    NormalizedRootedForm(path);
    JoinExtension(Segments(shorter), Segments(path));
  }

  lemma LastPiece(p: string)
    requires p != ""
    ensures p[|p| - 1] == '/' ==> Pieces(p)[|Pieces(p)| - 1] == ""
  {
    if p[|p| - 1] == '/' {
      var front := p[..|p| - 1];
      assert p == front + "/" + "";
      PiecesAppend(front, "");
    }
  }

  lemma NoTrailingSlash(p: string)
    requires IsRooted(p) && Normalized(p) && p != "/"
    ensures TrimSlash(p) == p
  {
    LastPiece(p[1..]);
    NormalizedRootedForm(p);
  }

  lemma SameSegmentsSamePath(p: string, q: string)
    requires IsRooted(p) && Normalized(p) && IsRooted(q) && Normalized(q)
    requires Segments(p) == Segments(q)
    ensures p == q
  {
    NormalizedRootedForm(p);
    NormalizedRootedForm(q);
  }

  lemma MatchImpliesCovers(prefix: string, path: string)
    requires IsRooted(prefix) && prefix != "/"
    requires IsRooted(path) && Normalized(path)
    requires Matches(prefix, path)
    ensures Covers(prefix, path)
  {
    if path != prefix {
      var trimmed := TrimSlash(prefix);
      assert path[..|trimmed| + 1] == trimmed + "/";
      assert path[..|trimmed|] == trimmed;
      CutNormalized(path, |trimmed|);
    }
  }

  lemma CoversImpliesMatch(prefix: string, path: string)
    requires IsRooted(prefix) && prefix != "/"
    requires IsRooted(path) && Normalized(path)
    requires Covers(prefix, path)
    ensures Matches(prefix, path)
  {
    if Normalized(prefix) && Segments(prefix) <= Segments(path) {
      NoTrailingSlash(prefix);
      if Segments(prefix) == Segments(path) {
        SameSegmentsSamePath(prefix, path);
      } else {
        ExtensionHasPrefix(prefix, path);
      }
    } else {
      ExtensionHasPrefix(TrimSlash(prefix), path);
    }
  }

  /** For a clean rooted path the string test is exactly segment extension. */
  lemma MatchesMeansCovers(prefix: string, path: string)
    requires IsRooted(prefix)
    requires IsRooted(path) && Normalized(path)
    ensures Matches(prefix, path) <==> Covers(prefix, path)
  {
    if prefix == "/" {
      RootIsNormalized();
      assert TrimSlash(prefix) + "/" == "/";
    } else {
      if Matches(prefix, path) {
        MatchImpliesCovers(prefix, path);
      }
      if Covers(prefix, path) {
        CoversImpliesMatch(prefix, path);
      }
    }
  }

  /** An entry that is unclean beyond one trailing slash refuses everything. */
  lemma UncleanPrefixIsDead(prefix: string, path: string)
    requires IsRooted(prefix) && IsRooted(path) && Normalized(path)
    requires !Normalized(prefix)
    requires prefix == "//" || !Normalized(TrimSlash(prefix))
    ensures !Matches(prefix, path)
  {
    MatchesMeansCovers(prefix, path);
  }

  ghost predicate AllRooted(prefixes: seq<string>) {
    forall prefix | prefix in prefixes :: IsRooted(prefix)
  }

  ghost predicate PassesGuards(prefixes: seq<string>, path: string) {
    Normalized(path) && Allowed(prefixes, path)
  }

  /**
   What a configured allowlist guarantees, and exactly what it lets through.
   */
  lemma AllowlistTheorem(prefixes: seq<string>, path: string)
    requires prefixes != [] && AllRooted(prefixes)
    ensures PassesGuards(prefixes, path) ==> IsRooted(path) && RemoveDotSegments(path) == path
    ensures PassesGuards(prefixes, path)
       <==> IsRooted(path) && Normalized(path) && exists prefix | prefix in prefixes :: Covers(prefix, path)
  {
    if PassesGuards(prefixes, path) {
      var prefix :| prefix in prefixes && Matches(prefix, path);
      assert TrimSlash(prefix) + "/" <= path ==> path[0] == (TrimSlash(prefix) + "/")[0];
      assert IsRooted(path);
      MatchesMeansCovers(prefix, path);
      NormalizedSurvivesResolution(path);
    }
    if IsRooted(path) && Normalized(path) && exists prefix | prefix in prefixes :: Covers(prefix, path) {
      var prefix :| prefix in prefixes && Covers(prefix, path);
      MatchesMeansCovers(prefix, path);
    }
  }

  /** The request target "*", which a GET can carry as well as an OPTIONS, is clean and relative. */
  lemma StarIsNormalized()
    ensures Normalized("*") && !IsRooted("*")
  {
    var stack := ["*"];
    assert Render(false, stack) == "*";
    CleanedRender(false, stack);
  }

  /**
   The comment on the clean-form test also promises a path "rooted at /". The
   test alone does not give that: "*" is clean. Both guards together give it
   exactly when the allowlist is not empty.
   */
  lemma RootednessComesFromTheAllowlist(prefixes: seq<string>)
    requires AllRooted(prefixes)
    ensures Normalized("*") && !IsRooted("*")
    ensures (forall path | PassesGuards(prefixes, path) :: IsRooted(path)) <==> prefixes != []
  {
    StarIsNormalized();
    if prefixes == [] {
      assert PassesGuards(prefixes, "*");
    } else {
      forall path | PassesGuards(prefixes, path)
        ensures IsRooted(path)
      {
        AllowlistTheorem(prefixes, path);
      }
    }
  }

  /**
   An entry in words that say nothing of prefixes: "/a/b" admits itself and what is
   below it, "/a/b/" only what is below it, and "/" every clean rooted path.
   */
  lemma EntryAdmits(entry: seq<string>, path: seq<string>)
    requires entry != [] && AllReal(entry) && AllReal(path)
    ensures Allowed(["/" + Join(entry)], "/" + Join(path)) <==> entry <= path
    ensures Allowed(["/" + Join(entry) + "/"], "/" + Join(path)) <==> entry < path
    ensures Allowed(["/"], "/" + Join(path))
  {
    var plain, slashed, target := "/" + Join(entry), "/" + Join(entry) + "/", "/" + Join(path);
    RealSegmentsAreNormalized(entry);
    RealSegmentsAreNormalized(path);
    PlainEntry(entry);
    MatchesMeansCovers(plain, target);
    MatchesMeansCovers(slashed, target);
    RootIsNormalized();
    MatchesMeansCovers("/", target);
    assert plain in [plain] && slashed in [slashed] && "/" in ["/"];
  }

  /** With its trailing slash an entry is not clean, and the trim takes that slash off. */
  lemma PlainEntry(entry: seq<string>)
    requires entry != [] && AllReal(entry)
    ensures var plain, slashed := "/" + Join(entry), "/" + Join(entry) + "/";
      && TrimSlash(plain) == plain && plain != "/"
      && TrimSlash(slashed) == plain && slashed != "//" && !Normalized(slashed)
  {
    var plain, slashed := "/" + Join(entry), "/" + Join(entry) + "/";
    RealSegmentsAreNormalized(entry);
    JoinStartsWithSegment(entry);
    NoTrailingSlash(plain);
    assert slashed[..|slashed| - 1] == plain;
    if Normalized(slashed) {
      NoTrailingSlash(slashed);
    }
  }

  // ----- Clean paths of either kind -----

  lemma {:induction false} RemoveDotsNeverGrows(input: string, output: string)
    ensures |RemoveDots(input, output)| <= |input| + |output|
    decreases |input|
  {
    DropShortens(output);
    if input == "" || input == "." || input == ".." {
    } else if "../" <= input {
      RemoveDotsNeverGrows(input[3..], output);
    } else if "./" <= input || "/./" <= input {
      RemoveDotsNeverGrows(input[2..], output);
    } else if input == "/." {
      RemoveDotsNeverGrows("/", output);
    } else if "/../" <= input {
      RemoveDotsNeverGrows(input[3..], DropLastSegment(output));
    } else if input == "/.." {
      RemoveDotsNeverGrows("/", DropLastSegment(output));
    } else {
      var e := SegmentEnd(input, 1);
      RemoveDotsNeverGrows(input[e..], output + input[..e]);
    }
  }

  lemma {:induction false} DropShortens(output: string)
    ensures |DropLastSegment(output)| <= |output|
  {
    if output != "" {
      DropShortens(output[..|output| - 1]);
    }
  }

  lemma JoinHead(stack: seq<string>)
    requires stack != []
    ensures Join(stack) == stack[0] + Slashed(stack[1..])
  {
    if |stack| == 1 {
      assert Slashed(stack[1..]) == "";
    } else {
      JoinAppend([stack[0]], stack[1..]);
      assert stack == [stack[0]] + stack[1..];
      assert Join([stack[0]]) == stack[0];
      SlashedIsJoin(stack[1..]);
      Reassociate(stack[0], "/", Join(stack[1..]));
    }
  }

  /** A relative path of real segments goes through remove_dot_segments unchanged. */
  lemma RelativeRealSurvives(segments: seq<string>)
    requires segments != [] && AllReal(segments)
    ensures RemoveDotSegments(Join(segments)) == Join(segments)
  {
    var first, tail := segments[0], Slashed(segments[1..]);
    JoinHead(segments);
    RemoveDotsKeepsReal(segments[1..], tail, first);
    RelativeFirstMoves(first, tail);
  }

  lemma RelativeFirstMoves(first: string, tail: string)
    requires RealSegment(first)
    requires tail != "" ==> tail[0] == '/'
    ensures RemoveDots(first + tail, "") == RemoveDots(tail, first)
  {
    var input := first + tail;
    assert forall i | 0 <= i < |first| :: input[i] == first[i] && first[i] != '/';
    assert |first| < |input| ==> input[|first|] == '/';
    EndOfFront(first, 1, tail);
    assert SegmentEnd(first, 1) == |first|;
    assert input[..|first|] == first && input[|first|..] == tail;
    NoRelativeDotCase(first, tail);
    assert "" + first == first;
  }

  lemma NoRelativeDotCase(first: string, tail: string)
    requires RealSegment(first)
    requires tail != "" ==> tail[0] == '/'
    ensures var input := first + tail;
            && !("../" <= input) && !("./" <= input) && !("/./" <= input) && !("/../" <= input)
            && input != "/." && input != "/.." && input != "." && input != ".."
  {
    var input := first + tail;
    assert forall i | 0 <= i < |first| :: input[i] == first[i] && first[i] != '/';
    assert |first| < |input| ==> input[|first|] == '/';
    if |first| == 1 {
      assert first == [first[0]];
    } else if |first| == 2 {
      assert first == [first[0], first[1]];
    } else {
      assert input[1] != '/' && input[2] != '/';
    }
  }

  /** A clean relative path is its segments joined, or ".". */
  lemma NormalizedRelativeForm(p: string) returns (stack: seq<string>)
    requires !IsRooted(p) && Normalized(p)
    ensures Resolved(false, stack)
    ensures p == if stack == [] then "." else Join(stack)
  {
    stack := CleanedIsRender(p);
    assert Render(false, stack) == Join(stack);
    if stack != [] {
      JoinStartsWithSegment(stack);
    }
  }

  /** A relative stack that starts with ".." prints as ".." or "../" and more. */
  lemma UpwardsShows(stack: seq<string>)
    requires stack != [] && stack[0] == ".."
    ensures Join(stack) == ".." || "../" <= Join(stack)
  {
    JoinHead(stack);
    if |stack| > 1 {
      assert Slashed(stack[1..])[0] == '/';
    } else {
      assert Slashed(stack[1..]) == "";
    }
  }

  /**
   When a backend sees the very path that passed the clean-form test: always if
   the path is rooted; a relative one, which an empty allowlist lets through, exactly
   if it does not lead upwards or nowhere.
   */
  lemma CleanPathSurvivesExactly(path: string)
    requires Normalized(path)
    ensures RemoveDotSegments(path) == path
       <==> IsRooted(path) || (path != "." && path != ".." && !("../" <= path))
  {
    if IsRooted(path) {
      NormalizedSurvivesResolution(path);
    } else if "../" <= path {
      RemoveDotsNeverGrows(path[3..], "");
    } else if path != "." && path != ".." {
      var stack := NormalizedRelativeForm(path);
      if stack[0] == ".." {
        UpwardsShows(stack);
      }
      assert Ups(stack) == 0;
      RelativeRealSurvives(stack);
    } else {
      assert RemoveDots(path, "") == "";
    }
  }

  // ----- The home endpoint's own floor -----

  datatype Gate = Forward | BadRequest | Forbidden

  /** local.go's guard order: clean form first, then the allowlist. */
  method LocalGate(allowedPrefixes: seq<string>, path: string) returns (gate: Gate)
    ensures gate == BadRequest <==> !Normalized(path)
    ensures gate == Forward <==> PassesGuards(allowedPrefixes, path)
  {
    var normalized := PathIsNormalized(path);
    if !normalized {
      return BadRequest;
    }
    var allowed := PathAllowed(allowedPrefixes, path);
    return if allowed then Forward else Forbidden;
  }
}
