/**
 Lexical path cleaning, the rule behind remote.go's `pathIsNormalized`.

 `Cleaned` gives the meaning: the non-empty segments of a path are resolved one
 by one against a stack ("." is skipped, ".." pops) and the stack is printed
 back. `Clean` is the algorithm documented for Go's path.Clean: one pass over
 the path, writing into a buffer that is backed up in place on "..".
 */
module PathClean {

  predicate IsRooted(p: string) {
    p != "" && p[0] == '/'
  }

  /** Index of the first '/' at or after r, or |p|. */
  function SegmentEnd(p: string, r: nat): (e: nat)
    requires r <= |p|
    ensures r <= e <= |p|
    ensures '/' !in p[r..e]
    ensures e < |p| ==> p[e] == '/'
    decreases |p| - r
  {
    if r == |p| || p[r] == '/' then r
    else
      var e := SegmentEnd(p, r + 1);
      assert p[r..e] == [p[r]] + p[r + 1..e];
      e
  }

  /** The non-empty segments of p[r..]. */
  function SegmentsFrom(p: string, r: nat): seq<string>
    requires r <= |p|
    decreases |p| - r
  {
    if r == |p| then []
    else if p[r] == '/' then SegmentsFrom(p, r + 1)
    else
      var e := SegmentEnd(p, r);
      [p[r..e]] + SegmentsFrom(p, e)
  }

  function Segments(p: string): seq<string> {
    SegmentsFrom(p, 0)
  }

  /** One segment resolved against the stack of segments kept so far. */
  function Push(rooted: bool, stack: seq<string>, segment: string): seq<string> {
    if segment == "." then stack
    else if segment == ".." then
      if stack != [] && stack[|stack| - 1] != ".." then stack[..|stack| - 1]
      else if rooted then stack
      else stack + [segment]
    else stack + [segment]
  }

  function Resolve(rooted: bool, stack: seq<string>, segments: seq<string>): seq<string>
    decreases |segments|
  {
    if segments == [] then stack
    else Resolve(rooted, Push(rooted, stack, segments[0]), segments[1..])
  }

  function Join(segments: seq<string>): string {
    if segments == [] then ""
    else if |segments| == 1 then segments[0]
    else Join(segments[..|segments| - 1]) + "/" + segments[|segments| - 1]
  }

  function Render(rooted: bool, stack: seq<string>): string {
    (if rooted then "/" else "") + Join(stack)
  }

  function Cleaned(p: string): string {
    var out := Render(IsRooted(p), Resolve(IsRooted(p), [], Segments(p)));
    if out == "" then "." else out
  }

  // ----- What a resolved stack looks like -----

  predicate Plain(segment: string) {
    segment != "" && '/' !in segment
  }

  /** Length of the leading run of ".." segments. */
  function Ups(stack: seq<string>): (k: nat)
    ensures k <= |stack|
    ensures forall i | 0 <= i < k :: stack[i] == ".."
    ensures k < |stack| ==> stack[k] != ".."
  {
    if stack == [] || stack[0] != ".." then 0 else 1 + Ups(stack[1..])
  }

  /** Segments only, no ".", and ".." only as the leading run of a relative path. */
  ghost predicate Resolved(rooted: bool, stack: seq<string>) {
    && (rooted ==> Ups(stack) == 0)
    && forall i | 0 <= i < |stack| ::
         Plain(stack[i]) && stack[i] != "." && (i >= Ups(stack) ==> stack[i] != "..")
  }

  lemma {:induction false} SegmentsArePlain(p: string, r: nat)
    requires r <= |p|
    ensures forall i | 0 <= i < |SegmentsFrom(p, r)| :: Plain(SegmentsFrom(p, r)[i])
    decreases |p| - r
  {
    if r < |p| {
      if p[r] == '/' {
        SegmentsArePlain(p, r + 1);
      } else {
        SegmentsArePlain(p, SegmentEnd(p, r));
      }
    }
  }

  lemma {:induction false} UpsPush(stack: seq<string>, segment: string)
    ensures segment != ".." ==> Ups(stack + [segment]) == Ups(stack)
    ensures segment == ".." && Ups(stack) == |stack| ==> Ups(stack + [segment]) == |stack| + 1
  {
    if stack != [] {
      UpsPush(stack[1..], segment);
      assert (stack + [segment])[1..] == stack[1..] + [segment];
    }
  }

  lemma PushKeepsResolved(rooted: bool, stack: seq<string>, segment: string)
    requires Resolved(rooted, stack) && Plain(segment)
    ensures Resolved(rooted, Push(rooted, stack, segment))
  {
    UpsPush(stack, segment);
    if stack != [] {
      assert stack == stack[..|stack| - 1] + [stack[|stack| - 1]];
      PopKeepsResolved(rooted, stack[..|stack| - 1], stack[|stack| - 1]);
    }
  }

  lemma PopKeepsResolved(rooted: bool, rest: seq<string>, last: string)
    ensures Resolved(rooted, rest + [last]) && last != ".." ==> Resolved(rooted, rest)
    ensures last == ".." && Resolved(rooted, rest + [last]) ==> Ups(rest + [last]) == |rest| + 1 && !rooted
  {
    UpsPush(rest, last);
    assert forall i | 0 <= i < |rest| :: (rest + [last])[i] == rest[i];
    assert (rest + [last])[|rest|] == last;
  }

  lemma {:induction false} ResolveKeepsResolved(rooted: bool, stack: seq<string>, segments: seq<string>)
    requires Resolved(rooted, stack)
    requires forall i | 0 <= i < |segments| :: Plain(segments[i])
    ensures Resolved(rooted, Resolve(rooted, stack, segments))
    decreases |segments|
  {
    if segments != [] {
      PushKeepsResolved(rooted, stack, segments[0]);
      ResolveKeepsResolved(rooted, Push(rooted, stack, segments[0]), segments[1..]);
    }
  }

  // ----- Printing -----

  lemma JoinPush(stack: seq<string>, segment: string)
    ensures Join(stack + [segment]) == if stack == [] then segment else Join(stack) + "/" + segment
  {
    assert (stack + [segment])[..|stack|] == stack;
  }

  /** The printed prefix of the stack is a prefix of the printed stack. */
  lemma {:induction false} JoinPrefix(stack: seq<string>, k: nat)
    requires k <= |stack|
    ensures |Join(stack[..k])| <= |Join(stack)|
    ensures Join(stack)[..|Join(stack[..k])|] == Join(stack[..k])
  {
    if k == |stack| {
      assert stack[..k] == stack;
    } else if |stack| > 1 {
      var rest := stack[..|stack| - 1];
      JoinPrefix(rest, k);
      assert rest[..k] == stack[..k];
    }
  }

  lemma {:induction false} JoinStartsWithSegment(stack: seq<string>)
    requires stack != [] && stack[0] != ""
    ensures Join(stack) != "" && Join(stack)[0] == stack[0][0]
  {
    if |stack| > 1 {
      JoinStartsWithSegment(stack[..|stack| - 1]);
    }
  }

  // ----- The in-place algorithm -----

  /** Backs the write position up over the last segment, never below `floor`. */
  method Backtrack(buf: array<char>, w: nat, floor: nat, ghost keep: nat) returns (w': nat)
    requires floor <= keep < w <= buf.Length
    requires keep > floor ==> buf[keep] == '/'
    requires forall i | keep < i < w :: buf[i] != '/'
    ensures w' == keep
  {
    w' := w - 1;
    while w' > floor && buf[w'] != '/'
      invariant keep <= w' < w
    {
      w' := w' - 1;
    }
  }

  /** Copies p[r..e], one segment, to the write position. */
  method CopySegment(buf: array<char>, w: nat, p: string, r: nat) returns (w': nat, r': nat)
    requires r <= |p|
    requires w <= r && |p| <= buf.Length
    modifies buf
    ensures r' == SegmentEnd(p, r)
    ensures w' == w + (r' - r)
    ensures buf[..w'] == old(buf[..w]) + p[r..r']
  {
    w', r' := w, r;
    while r' < |p| && p[r'] != '/'
      invariant r <= r' <= |p|
      invariant w' == w + (r' - r)
      invariant SegmentEnd(p, r) == SegmentEnd(p, r')
      invariant buf[..w'] == old(buf[..w]) + p[r..r']
    {
      buf[w'] := p[r'];
      w', r' := w' + 1, r' + 1;
      assert p[r..r'] == p[r..r' - 1] + [p[r' - 1]];
    }
  }

  /** What the buffer and the two marks stand for between two segments. */
  ghost predicate Holds(written: string, floor: nat, rooted: bool, stack: seq<string>) {
    && Resolved(rooted, stack)
    && written == Render(rooted, stack)
    && floor == |Render(rooted, stack[..Ups(stack)])|
  }

  /** Separator written in front of the next segment. */
  function Separator(stack: seq<string>): string {
    if stack == [] then "" else "/"
  }

  lemma RenderPush(rooted: bool, stack: seq<string>, segment: string)
    ensures Render(rooted, stack + [segment]) == Render(rooted, stack) + Separator(stack) + segment
  {
    JoinPush(stack, segment);
  }

  /** Appending a real segment to the text appends it to the stack; the floor stays. */
  lemma HoldsPush(written: string, floor: nat, rooted: bool, stack: seq<string>, segment: string)
    requires Holds(written, floor, rooted, stack)
    requires Plain(segment) && segment != "." && segment != ".."
    ensures Holds(written + Separator(stack) + segment, floor, rooted, stack + [segment])
  {
    RenderPush(rooted, stack, segment);
    UpsPush(stack, segment);
    PushKeepsResolved(rooted, stack, segment);
    assert (stack + [segment])[..Ups(stack)] == stack[..Ups(stack)];
  }

  /** A ".." that a relative path cannot resolve is kept, and becomes the floor. */
  lemma HoldsUp(written: string, floor: nat, stack: seq<string>)
    requires Holds(written, floor, false, stack)
    requires stack == [] || stack[|stack| - 1] == ".."
    ensures var written' := written + Separator(stack) + "..";
            Holds(written', |written'|, false, stack + [".."])
  {
    JoinPush(stack, "..");
    UpsPush(stack, "..");
    assert Ups(stack) == |stack|;
    assert (stack + [".."])[..|stack| + 1] == stack + [".."];
    assert written + Separator(stack) + ".." == Render(false, stack + [".."]);
  }

  lemma LastPart(front: string, separator: string, last: string)
    requires Plain(last) && (separator == "" || separator == "/")
    ensures var text, keep := front + separator + last, |front|;
            && text[..keep] == front
            && (separator == "/" ==> text[keep] == '/')
            && forall i | keep < i < |text| :: text[i] != '/'
  {
    var text := front + separator + last;
    assert forall i | |front + separator| <= i < |text| :: text[i] == last[i - |front + separator|];
  }

  /** Printing one more segment: where the old text ends in the new one. */
  lemma LastSegmentText(rooted: bool, rest: seq<string>, last: string)
    requires Plain(last)
    ensures var text, keep := Render(rooted, rest + [last]), |Render(rooted, rest)|;
            && keep < |text|
            && text[..keep] == Render(rooted, rest)
            && (rest != [] ==> text[keep] == '/')
            && forall i | keep < i < |text| :: text[i] != '/'
  {
    RenderPush(rooted, rest, last);
    LastPart(Render(rooted, rest), Separator(rest), last);
  }

  /** The floor is inside the text that is left after a pop. */
  lemma FloorBelow(rooted: bool, rest: seq<string>, last: string)
    requires last != ".."
    ensures var floor := |Render(rooted, (rest + [last])[..Ups(rest + [last])])|;
            && floor == |Render(rooted, rest[..Ups(rest)])|
            && floor <= |Render(rooted, rest)|
            && (floor < |Render(rooted, rest)| ==> rest != [])
  {
    UpsPush(rest, last);
    assert (rest + [last])[..Ups(rest)] == rest[..Ups(rest)];
    JoinPrefix(rest, Ups(rest));
    assert rest == [] ==> rest[..0] == [];
  }

  /** Where the text is cut to take the last segment off. */
  lemma HoldsPop(written: string, floor: nat, rooted: bool, stack: seq<string>) returns (keep: nat)
    requires Holds(written, floor, rooted, stack)
    requires stack != [] && stack[|stack| - 1] != ".."
    ensures floor <= keep < |written|
    ensures Holds(written[..keep], floor, rooted, stack[..|stack| - 1])
    ensures keep > floor ==> written[keep] == '/'
    ensures forall i | keep < i < |written| :: written[i] != '/'
  {
    var rest, last := stack[..|stack| - 1], stack[|stack| - 1];
    assert stack == rest + [last];
    keep := |Render(rooted, rest)|;
    PopKeepsResolved(rooted, rest, last);
    assert Plain(last);
    LastSegmentText(rooted, rest, last);
    FloorBelow(rooted, rest, last);
  }

  /** The write position is at the floor exactly when there is nothing to pop. */
  lemma AtFloor(written: string, floor: nat, rooted: bool, stack: seq<string>)
    requires Holds(written, floor, rooted, stack)
    ensures |written| > floor <==> stack != [] && stack[|stack| - 1] != ".."
    ensures |written| >= floor
  {
    if stack == [] {
    } else if stack[|stack| - 1] == ".." {
      assert Ups(stack) == |stack|;
      assert stack[..Ups(stack)] == stack;
    } else {
      var keep := HoldsPop(written, floor, rooted, stack);
    }
  }

  /** Nothing is written for the stack exactly when the stack is empty. */
  lemma NothingWritten(written: string, floor: nat, rooted: bool, stack: seq<string>)
    requires Holds(written, floor, rooted, stack)
    ensures stack == [] <==> |written| == if rooted then 1 else 0
  {
    if stack != [] {
      JoinStartsWithSegment(stack);
    }
  }

  /** A ".." at the floor of a relative path is written out and raises the floor. */
  method KeepUp(buf: array<char>, w: nat, ghost floor: nat, ghost stack: seq<string>) returns (w': nat)
    requires w + |Separator(stack)| + 2 <= buf.Length
    requires Holds(buf[..w], floor, false, stack) && w == floor
    modifies buf
    ensures w' == w + |Separator(stack)| + 2 <= buf.Length
    ensures Holds(buf[..w'], w', false, Push(false, stack, ".."))
  {
    AtFloor(buf[..w], floor, false, stack);
    HoldsUp(buf[..w], floor, stack);
    NothingWritten(buf[..w], floor, false, stack);
    w' := w;
    if w > 0 {
      buf[w'] := '/';
      w' := w' + 1;
    }
    assert buf[..w'] == old(buf[..w]) + Separator(stack);
    buf[w'] := '.';
    buf[w' + 1] := '.';
    w' := w' + 2;
    assert buf[..w'] == old(buf[..w]) + Separator(stack) + "..";
  }

  /** A ".." above the floor takes the last segment back. */
  method TakeBack(buf: array<char>, w: nat, floor: nat, ghost rooted: bool, ghost stack: seq<string>) returns (w': nat)
    requires w <= buf.Length
    requires Holds(buf[..w], floor, rooted, stack) && w > floor
    ensures w' < w
    ensures Holds(buf[..w'], floor, rooted, Push(rooted, stack, ".."))
  {
    AtFloor(buf[..w], floor, rooted, stack);
    ghost var keep := HoldsPop(buf[..w], floor, rooted, stack);
    assert forall i | keep <= i < w :: buf[i] == buf[..w][i];
    w' := Backtrack(buf, w, floor, keep);
    assert buf[..w'] == buf[..w][..keep];
  }

  /** The ordinary case: a separator if one is needed, then the segment itself. */
  method Descend(buf: array<char>, w: nat, ghost floor: nat, rooted: bool, p: string, r: nat, ghost stack: seq<string>)
    returns (w': nat, r': nat)
    requires r < |p| == buf.Length && p[r] != '/'
    requires p[r..SegmentEnd(p, r)] != "." && p[r..SegmentEnd(p, r)] != ".."
    requires w + |Separator(stack)| <= r
    requires Holds(buf[..w], floor, rooted, stack)
    modifies buf
    ensures r' == SegmentEnd(p, r) && w' <= r'
    ensures Holds(buf[..w'], floor, rooted, stack + [p[r..r']])
  {
    w' := w;
    NothingWritten(buf[..w], floor, rooted, stack);
    HoldsPush(buf[..w], floor, rooted, stack, p[r..SegmentEnd(p, r)]);
    if (rooted && w' != 1) || (!rooted && w' != 0) {
      buf[w'] := '/';
      w' := w' + 1;
    }
    assert buf[..w'] == old(buf[..w]) + Separator(stack);
    w', r' := CopySegment(buf, w', p, r);
  }

  /** The next segment to resolve, once the read position is at one. */
  lemma NextSegment(p: string, r: nat)
    requires r < |p| && p[r] != '/'
    ensures var e := SegmentEnd(p, r);
            && SegmentsFrom(p, r) != []
            && SegmentsFrom(p, r)[0] == p[r..e]
            && SegmentsFrom(p, r)[1..] == SegmentsFrom(p, e)
  {
  }

  /** The two look-ahead tests recognise exactly the segments "." and "..". */
  lemma DotSegments(p: string, r: nat)
    requires r < |p|
    ensures p[r..SegmentEnd(p, r)] == "." <==> p[r] == '.' && (r + 1 == |p| || p[r + 1] == '/')
    ensures p[r..SegmentEnd(p, r)] == "." ==> SegmentEnd(p, r) == r + 1
    ensures p[r..SegmentEnd(p, r)] == ".." ==> SegmentEnd(p, r) == r + 2
    ensures p[r..SegmentEnd(p, r)] == ".."
       <==> p[r] == '.' && r + 1 < |p| && p[r + 1] == '.' && (r + 2 == |p| || p[r + 2] == '/')
  {
    var e := SegmentEnd(p, r);
    assert forall i | r <= i < e :: p[i] == p[r..e][i - r];
    if p[r] != '/' && r + 1 < |p| && p[r + 1] != '/' {
      assert e == SegmentEnd(p, r + 2);
    }
  }

  /** One round of the loop that starts at a segment: the three cases in order. */
  method Step(buf: array<char>, p: string, r: nat, w: nat, floor: nat, rooted: bool, ghost stack: seq<string>)
    returns (r': nat, w': nat, floor': nat)
    requires r < |p| == buf.Length && p[r] != '/'
    requires w + |Separator(stack)| <= r
    requires Holds(buf[..w], floor, rooted, stack)
    modifies buf
    ensures r' == SegmentEnd(p, r) && w' <= r'
    ensures Holds(buf[..w'], floor', rooted, Push(rooted, stack, p[r..r']))
  {
    DotSegments(p, r);
    w', floor' := w, floor;
    if p[r] == '.' && (r + 1 == |p| || p[r + 1] == '/') {
      r' := r + 1;
    } else if p[r] == '.' && p[r + 1] == '.' && (r + 2 == |p| || p[r + 2] == '/') {
      r' := r + 2;
      AtFloor(buf[..w], floor, rooted, stack);
      if w > floor {
        w' := TakeBack(buf, w, floor, rooted, stack);
      } else if !rooted {
        w' := KeepUp(buf, w, floor, stack);
        floor' := w';
      }
    } else {
      w', r' := Descend(buf, w, floor, rooted, p, r, stack);
    }
  }

  /** The loop: everything from r on is read, the stack it resolves to is written. */
  method Scan(buf: array<char>, p: string, start: nat, rooted: bool)
    returns (w: nat, ghost floor: nat, ghost stack: seq<string>)
    requires start <= |p| == buf.Length
    requires start == if rooted then 1 else 0
    requires rooted ==> buf[0] == '/'
    modifies buf
    ensures w <= buf.Length
    ensures stack == Resolve(rooted, [], SegmentsFrom(p, start))
    ensures Holds(buf[..w], floor, rooted, stack)
  {
    var r: nat, dotdot: nat := start, start;
    w, stack := start, [];
    ghost var todo := SegmentsFrom(p, r);
    ghost var result := Resolve(rooted, stack, todo);
    while r < |p|
      invariant w <= r <= |p|
      invariant r < |p| && p[r] != '/' ==> w + |Separator(stack)| <= r
      invariant Holds(buf[..w], dotdot, rooted, stack)
      invariant todo == SegmentsFrom(p, r)
      invariant Resolve(rooted, stack, todo) == result
    {
      if p[r] == '/' {
        r := r + 1;
      } else {
        NextSegment(p, r);
        r, w, dotdot := Step(buf, p, r, w, dotdot, rooted, stack);
        stack, todo := Push(rooted, stack, todo[0]), todo[1..];
      }
    }
    floor := dotdot;
  }

  method Clean(p: string) returns (cleaned: string)
    ensures cleaned == Cleaned(p)
  {
    if p == "" {
      return ".";
    }
    var rooted := p[0] == '/';
    var buf := new char[|p|];
    var start := 0;
    if rooted {
      buf[0] := '/';
      start := 1;
    }
    var w, floor, stack := Scan(buf, p, start, rooted);
    assert SegmentsFrom(p, start) == Segments(p);
    return if w == 0 then "." else buf[..w];
  }

  // ----- Cleaning twice -----

  lemma {:induction false} SegmentsAppend(front: string, r: nat, last: string)
    requires r <= |front| && Plain(last)
    ensures SegmentsFrom(front + "/" + last, r) == SegmentsFrom(front, r) + [last]
    decreases |front| - r
  {
    var p := front + "/" + last;
    if r == |front| {
      LastSegment(p, r + 1, last);
    } else if front[r] == '/' {
      SegmentsAppend(front, r + 1, last);
    } else {
      EndOfFront(front, r, "/" + last);
      assert p == front + ("/" + last);
      var e := SegmentEnd(front, r);
      assert p[r..e] == front[r..e];
      SegmentsAppend(front, e, last);
    }
  }

  /** A path whose rest is one segment. */
  lemma LastSegment(p: string, r: nat, last: string)
    requires r <= |p| && p[r..] == last && Plain(last)
    ensures SegmentsFrom(p, r) == [last]
  {
    var e := SegmentEnd(p, r);
    assert forall i | r <= i < |p| :: p[i] == last[i - r];
    assert e == |p| && p[r..e] == last;
    assert SegmentsFrom(p, e) == [];
  }

  lemma {:induction false} EndOfFront(front: string, r: nat, back: string)
    requires r <= |front|
    requires back != "" ==> back[0] == '/'
    ensures SegmentEnd(front + back, r) == SegmentEnd(front, r)
    decreases |front| - r
  {
    if r < |front| && front[r] != '/' {
      EndOfFront(front, r + 1, back);
    }
  }

  lemma OneSegment(rooted: bool, segment: string)
    requires Plain(segment)
    ensures Segments(Render(rooted, [segment])) == [segment]
  {
    var p := Render(rooted, [segment]);
    if rooted {
      assert p == "/" + segment;
      LastSegment(p, 1, segment);
      assert SegmentsFrom(p, 0) == SegmentsFrom(p, 1);
    } else {
      assert p == segment;
      LastSegment(p, 0, segment);
    }
  }

  lemma {:induction false} SegmentsOfRender(rooted: bool, stack: seq<string>)
    requires forall i | 0 <= i < |stack| :: Plain(stack[i])
    ensures Segments(Render(rooted, stack)) == stack
  {
    if |stack| > 1 {
      var rest, last := stack[..|stack| - 1], stack[|stack| - 1];
      SegmentsOfRender(rooted, rest);
      SegmentsAppend(Render(rooted, rest), 0, last);
      assert Render(rooted, stack) == Render(rooted, rest) + "/" + last;
    } else if |stack| == 1 {
      assert stack == [stack[0]];
      OneSegment(rooted, stack[0]);
    } else {
      var p := Render(rooted, stack);
      assert SegmentsFrom(p, |p|) == [];
    }
  }

  lemma RenderKeepsRoot(rooted: bool, stack: seq<string>)
    requires forall i | 0 <= i < |stack| :: Plain(stack[i])
    ensures IsRooted(Render(rooted, stack)) == rooted
  {
    if stack != [] {
      JoinStartsWithSegment(stack);
    }
  }

  lemma {:induction false} UpsPrefix(stack: seq<string>, k: nat)
    requires k <= |stack|
    ensures Ups(stack[..k]) == if k <= Ups(stack) then k else Ups(stack)
  {
    if k != 0 && stack[0] == ".." {
      assert stack[..k][1..] == stack[1..][..k - 1];
      UpsPrefix(stack[1..], k - 1);
    }
  }

  lemma PushNext(rooted: bool, stack: seq<string>, k: nat)
    requires Resolved(rooted, stack) && k < |stack|
    ensures Push(rooted, stack[..k], stack[k]) == stack[..k + 1]
  {
    UpsPrefix(stack, k);
    assert stack[..k + 1] == stack[..k] + [stack[k]];
    if stack[k] == ".." {
      assert k < Ups(stack);
      assert k > 0 ==> stack[..k][k - 1] == "..";
    }
  }

  /** Resolving what is already resolved pushes every segment. */
  lemma {:induction false} ResolveResolved(rooted: bool, stack: seq<string>, k: nat)
    requires Resolved(rooted, stack) && k <= |stack|
    ensures Resolve(rooted, stack[..k], stack[k..]) == stack
    decreases |stack| - k
  {
    if k == |stack| {
      assert stack[..k] == stack;
    } else {
      PushNext(rooted, stack, k);
      assert stack[k..][0] == stack[k] && stack[k..][1..] == stack[k + 1..];
      ResolveResolved(rooted, stack, k + 1);
    }
  }

  /** A printed resolved stack is its own clean form (the empty relative one prints as "."). */
  lemma CleanedRender(rooted: bool, stack: seq<string>)
    requires Resolved(rooted, stack) && Render(rooted, stack) != ""
    ensures Cleaned(Render(rooted, stack)) == Render(rooted, stack)
  {
    SegmentsOfRender(rooted, stack);
    RenderKeepsRoot(rooted, stack);
    ResolveResolved(rooted, stack, 0);
    assert stack[..0] == [] && stack[0..] == stack;
  }

  /** Every clean path is a printed resolved stack. */
  lemma CleanedIsRender(p: string) returns (stack: seq<string>)
    ensures Resolved(IsRooted(p), stack)
    ensures Cleaned(p) == if Render(IsRooted(p), stack) == "" then "." else Render(IsRooted(p), stack)
  {
    stack := Resolve(IsRooted(p), [], Segments(p));
    SegmentsArePlain(p, 0);
    ResolveKeepsResolved(IsRooted(p), [], Segments(p));
  }

  lemma CleanedIdempotent(p: string)
    ensures Cleaned(Cleaned(p)) == Cleaned(p)
    ensures IsRooted(Cleaned(p)) == IsRooted(p)
  {
    var stack := CleanedIsRender(p);
    if Render(IsRooted(p), stack) == "" {
      LastSegment(".", 0, ".");
    } else {
      CleanedRender(IsRooted(p), stack);
      RenderKeepsRoot(IsRooted(p), stack);
    }
  }

  // ----- Where a path leads -----

  /** One step through a directory tree; ".." at the root stays at the root. */
  function Enter(dir: seq<string>, segment: string): seq<string> {
    if segment == "." then dir
    else if segment != ".." then dir + [segment]
    else if dir == [] then dir
    else dir[..|dir| - 1]
  }

  function Walk(dir: seq<string>, segments: seq<string>): seq<string>
    decreases |segments|
  {
    if segments == [] then dir else Walk(Enter(dir, segments[0]), segments[1..])
  }

  lemma {:induction false} WalkAppend(dir: seq<string>, front: seq<string>, last: string)
    ensures Walk(dir, front + [last]) == Enter(Walk(dir, front), last)
    decreases |front|
  {
    if front != [] {
      assert (front + [last])[1..] == front[1..] + [last];
      WalkAppend(Enter(dir, front[0]), front[1..], last);
    }
  }

  lemma {:induction false} WalkResolve(rooted: bool, dir: seq<string>, stack: seq<string>, segments: seq<string>)
    requires rooted ==> dir == []
    requires Resolved(rooted, stack)
    requires forall i | 0 <= i < |segments| :: Plain(segments[i])
    ensures Walk(dir, Resolve(rooted, stack, segments)) == Walk(Walk(dir, stack), segments)
    decreases |segments|
  {
    if segments != [] {
      var segment := segments[0];
      PushKeepsResolved(rooted, stack, segment);
      WalkAppend(dir, stack, segment);
      if stack != [] {
        assert stack == stack[..|stack| - 1] + [stack[|stack| - 1]];
        WalkAppend(dir, stack[..|stack| - 1], stack[|stack| - 1]);
      }
      WalkResolve(rooted, dir, Push(rooted, stack, segment), segments[1..]);
    }
  }

  /** Cleaning does not change where a path leads, from any starting directory. */
  lemma CleanedLeadsToTheSamePlace(p: string, dir: seq<string>)
    requires IsRooted(p) ==> dir == []
    ensures Walk(dir, Segments(Cleaned(p))) == Walk(dir, Segments(p))
  {
    var resolved := Resolve(IsRooted(p), [], Segments(p));
    SegmentsArePlain(p, 0);
    ResolveKeepsResolved(IsRooted(p), [], Segments(p));
    WalkResolve(IsRooted(p), dir, [], Segments(p));
    if Render(IsRooted(p), resolved) == "" {
      NothingWritten("", 0, false, resolved);
      LastSegment(".", 0, ".");
    } else {
      SegmentsOfRender(IsRooted(p), resolved);
    }
  }

  /** Rooted paths have equal clean forms exactly when they lead to the same place. */
  lemma CleanedIsCanonical(p: string, q: string)
    requires IsRooted(p) && IsRooted(q)
    ensures Cleaned(p) == Cleaned(q) <==> Walk([], Segments(p)) == Walk([], Segments(q))
  {
    CleanedLeadsToTheSamePlace(p, []);
    CleanedLeadsToTheSamePlace(q, []);
    RootedWalkIsResolve([], Segments(p));
    RootedWalkIsResolve([], Segments(q));
  }

  lemma {:induction false} RootedWalkIsResolve(stack: seq<string>, segments: seq<string>)
    requires ".." !in stack
    ensures Walk(stack, segments) == Resolve(true, stack, segments)
    decreases |segments|
  {
    if segments != [] {
      RootedWalkIsResolve(Push(true, stack, segments[0]), segments[1..]);
    }
  }
}
