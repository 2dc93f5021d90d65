/** The marker-block generator: `Block.rewrite` and the fold over all blocks in `main`. */
module TextSearch {

  const NL: char := '\n'

  predicate NoNewline(s: string) {
    NL !in s
  }

  /** Empty, or ending in a newline: what follows starts a line. */
  predicate WholeLines(s: string) {
    s == "" || s[|s| - 1] == NL
  }

  predicate OccursAt(text: string, pat: string, i: int) {
    0 <= i && i + |pat| <= |text| && text[i..i + |pat|] == pat
  }

  /** `text.find(pat)`, from position i on: the first occurrence, or -1. */
  function FindFrom(text: string, pat: string, i: nat): (r: int)
    requires i <= |text|
    ensures r == -1 || (i <= r && r + |pat| <= |text|)
    decreases |text| - i
  {
    if OccursAt(text, pat, i) then i
    else if i == |text| then -1
    else FindFrom(text, pat, i + 1)
  }

  function Find(text: string, pat: string): int {
    FindFrom(text, pat, 0)
  }

  /** p is the first occurrence, or -1 if there is none. */
  ghost predicate IsFirst(text: string, pat: string, p: int) {
    && (p == -1 || OccursAt(text, pat, p))
    && (forall k :: 0 <= k && (p == -1 || k < p) ==> !OccursAt(text, pat, k))
  }

  lemma {:induction false} FindFromFirst(text: string, pat: string, i: nat)
    requires i <= |text| && forall k :: 0 <= k < i ==> !OccursAt(text, pat, k)
    ensures IsFirst(text, pat, FindFrom(text, pat, i))
    decreases |text| - i
  {
    if !OccursAt(text, pat, i) && i < |text| {
      FindFromFirst(text, pat, i + 1);
    }
  }

  lemma FindFirst(text: string, pat: string)
    ensures IsFirst(text, pat, Find(text, pat))
  {
    FindFromFirst(text, pat, 0);
  }

  lemma FindIs(text: string, pat: string, p: int)
    requires IsFirst(text, pat, p)
    ensures Find(text, pat) == p
  {
    FindFirst(text, pat);
    var q := Find(text, pat);
    assert p != -1 ==> OccursAt(text, pat, p);
    assert q != -1 ==> OccursAt(text, pat, q);
  }

  /** Where a pattern is not found, nothing that starts with it is. */
  lemma NoneLonger(text: string, pat: string, more: string)
    requires Find(text, pat) == -1
    ensures Find(text, pat + more) == -1
  {
    FindFirst(text, pat);
    forall k | OccursAt(text, pat + more, k) ensures OccursAt(text, pat, k) {
      assert text[k..k + |pat|] == text[k..k + |pat + more|][..|pat|] == pat;
    }
    FindIs(text, pat + more, -1);
  }

  /** An occurrence that lies inside a prefix does not depend on what follows. */
  lemma OccursInPrefix(a: string, x: string, pat: string, k: int)
    requires k + |pat| <= |a|
    ensures OccursAt(a + x, pat, k) <==> OccursAt(a, pat, k)
  {
    if 0 <= k {
      assert (a + x)[k..k + |pat|] == a[k..k + |pat|];
    }
  }

  lemma OccursInSuffix(a: string, x: string, pat: string, k: int)
    requires k >= |a|
    ensures OccursAt(a + x, pat, k) <==> OccursAt(x, pat, k - |a|)
  {
    if k + |pat| <= |a + x| {
      assert (a + x)[k..k + |pat|] == x[k - |a|..k - |a| + |pat|];
    }
  }

  lemma MatchesAt(text: string, pat: string, p: nat)
    requires OccursAt(text, pat, p)
    ensures forall i :: p <= i < p + |pat| ==> text[i] in pat
  {
    assert forall i :: p <= i < p + |pat| ==> text[i] == text[p..p + |pat|][i - p];
  }

  /** A pattern without newlines does not straddle the end of a line. */
  lemma NoStraddle(a: string, x: string, pat: string, k: int)
    requires a != "" && a[|a| - 1] == NL && NoNewline(pat)
    requires OccursAt(a + x, pat, k) && k < |a|
    ensures k + |pat| <= |a|
  {
    MatchesAt(a + x, pat, k);
    assert (a + x)[|a| - 1] == NL;
  }

  /** Searching whole lines followed by more text. */
  lemma FindConcat(a: string, x: string, pat: string)
    requires WholeLines(a) && NoNewline(pat) && pat != ""
    ensures Find(a + x, pat) ==
      if Find(a, pat) >= 0 then Find(a, pat)
      else if Find(x, pat) >= 0 then |a| + Find(x, pat)
      else -1
  {
    var p, q := Find(a, pat), Find(x, pat);
    FindFirst(a, pat);
    FindFirst(x, pat);
    var r := if p >= 0 then p else if q >= 0 then |a| + q else -1;
    forall k | 0 <= k && OccursAt(a + x, pat, k)
      ensures if k < |a| then OccursAt(a, pat, k) else OccursAt(x, pat, k - |a|)
    {
      if k < |a| {
        NoStraddle(a, x, pat, k);
        OccursInPrefix(a, x, pat, k);
      } else {
        OccursInSuffix(a, x, pat, k);
      }
    }
    if p >= 0 {
      OccursInPrefix(a, x, pat, p);
    } else if q >= 0 {
      OccursInSuffix(a, x, pat, |a| + q);
    }
    FindIs(a + x, pat, r);
  }

  lemma FindBeyond(a: string, x: string, pat: string)
    requires WholeLines(a) && NoNewline(pat) && pat != "" && Find(a + x, pat) >= |a|
    ensures Find(a, pat) == -1 && Find(x, pat) == Find(a + x, pat) - |a|
  {
    FindConcat(a, x, pat);
  }

  lemma FindWithin(a: string, x: string, y: string, pat: string)
    requires WholeLines(a) && NoNewline(pat) && pat != "" && 0 <= Find(a + x, pat) < |a|
    ensures Find(a, pat) == Find(a + y, pat) == Find(a + x, pat)
  {
    FindConcat(a, x, pat);
    FindConcat(a, y, pat);
  }

  lemma FindPast(a: string, x: string, pat: string)
    requires WholeLines(a) && NoNewline(pat) && pat != "" && Find(a, pat) == -1
    ensures Find(a + x, pat) == if Find(x, pat) == -1 then -1 else |a| + Find(x, pat)
  {
    FindConcat(a, x, pat);
  }

  /** `text.index("\n", i)`: the first newline from i on, or -1. */
  function NextNl(text: string, i: nat): (r: int)
    requires i <= |text|
    ensures r == -1 || (i <= r < |text| && text[r] == NL)
    decreases |text| - i
  {
    if i == |text| then -1 else if text[i] == NL then i else NextNl(text, i + 1)
  }

  lemma {:induction false} NextNlFirst(text: string, i: nat)
    requires i <= |text|
    ensures forall k :: i <= k < (if NextNl(text, i) == -1 then |text| else NextNl(text, i)) ==> text[k] != NL
    decreases |text| - i
  {
    if i < |text| && text[i] != NL { NextNlFirst(text, i + 1); }
  }

  /** `text.rindex("\n", 0, end)`: the last newline before end, or -1. */
  function PrevNl(text: string, end: nat): (r: int)
    requires end <= |text|
    ensures -1 <= r < end && (r >= 0 ==> text[r] == NL)
  {
    if end == 0 then -1 else if text[end - 1] == NL then end - 1 else PrevNl(text, end - 1)
  }

  lemma {:induction false} PrevNlLast(text: string, end: nat)
    requires end <= |text|
    ensures forall k :: PrevNl(text, end) < k < end ==> text[k] != NL
  {
    if end > 0 && text[end - 1] != NL { PrevNlLast(text, end - 1); }
  }

  lemma {:induction false} NextNlShift(front: string, tail: string, i: nat)
    requires i <= |tail|
    ensures NextNl(front + tail, |front| + i) == if NextNl(tail, i) == -1 then -1 else |front| + NextNl(tail, i)
    decreases |tail| - i
  {
    if i < |tail| {
      assert (front + tail)[|front| + i] == tail[i];
      if tail[i] != NL { NextNlShift(front, tail, i + 1); }
    }
  }

  lemma {:induction false} PrevNlShift(front: string, tail: string, end: nat)
    requires end <= |tail|
    ensures PrevNl(tail, end) >= 0 ==> PrevNl(front + tail, |front| + end) == |front| + PrevNl(tail, end)
    ensures PrevNl(tail, end) == -1 ==> PrevNl(front + tail, |front| + end) < |front|
  {
    if end > 0 {
      assert (front + tail)[|front| + end - 1] == tail[end - 1];
      if tail[end - 1] != NL { PrevNlShift(front, tail, end - 1); }
    }
  }

  lemma NextNlIs(text: string, i: nat, r: nat)
    requires i <= r < |text| && text[r] == NL && forall k :: i <= k < r ==> text[k] != NL
    ensures NextNl(text, i) == r
  {
    NextNlFirst(text, i);
  }

  lemma PrevNlIs(text: string, end: nat, r: int)
    requires -1 <= r < end <= |text| && (r >= 0 ==> text[r] == NL)
    requires forall k :: r < k < end ==> text[k] != NL
    ensures PrevNl(text, end) == r
  {
    PrevNlLast(text, end);
  }
}

module MarkerBlocks {
  import opened TextSearch
  import opened Folding

  datatype Result<T> = Ok(value: T) | MissingMarker | MissingNewline | MissingFile

  /** What a block's rewrite depends on: the two marker texts to look for and the render. */
  datatype Block = Block(begin: string, end: string, render: string)

  /** Where a block lies: its begin marker, the line after that, the start of the line of its
      end marker, and that marker. */
  datatype Region = Region(start: nat, lo: nat, hi: nat, endAt: nat)

  function Locate(text: string, b: Block): Result<Region> {
    var start := Find(text, b.begin);
    var endAt := Find(text, b.end);
    if start == -1 || endAt == -1 then MissingMarker
    else if NextNl(text, start) == -1 || PrevNl(text, endAt) == -1 then MissingNewline
    else Ok(Region(start, NextNl(text, start) + 1, PrevNl(text, endAt) + 1, endAt))
  }

  /** `Block.rewrite`. */
  function Rewrite(text: string, b: Block): Result<string> {
    match Locate(text, b)
    case Ok(r) => Ok(text[..r.lo] + b.render + text[r.hi..])
    case MissingMarker => MissingMarker
    case MissingNewline => MissingNewline
    case MissingFile => MissingFile
  }

  /** Marker texts are nonempty and lie within a line. */
  predicate MarkerOk(b: Block) {
    NoNewline(b.begin) && NoNewline(b.end) && b.begin != "" && b.end != ""
  }

  /** The order of the places of a located region. */
  lemma RegionFacts(text: string, b: Block)
    requires MarkerOk(b) && Locate(text, b).Ok?
    ensures var r := Locate(text, b).value;
            && r.start + |b.begin| <= r.lo - 1 && r.lo <= |text| && text[r.lo - 1] == NL
            && 0 < r.hi <= r.endAt && r.endAt + |b.end| <= |text| && text[r.hi - 1] == NL
            && (r.endAt < r.lo ==> r.endAt + |b.end| <= r.lo - 1)
            && (r.endAt >= r.lo ==> r.hi >= r.lo)
  {
    var r := Locate(text, b).value;
    FindFirst(text, b.begin);
    FindFirst(text, b.end);
    RegionLines(text, b);
    WithinLine(text, b.begin, r.start, r.lo - 1);
    if r.endAt < r.lo {
      WithinLine(text, b.end, r.endAt, r.lo - 1);
    }
  }

  /** The markers' own lines hold no newline but the one that ends the first. */
  lemma RegionLines(text: string, b: Block)
    requires Locate(text, b).Ok?
    ensures var r := Locate(text, b).value;
            && (forall k :: r.start <= k < r.lo - 1 ==> text[k] != NL)
            && (forall k :: r.hi <= k < r.endAt ==> text[k] != NL)
  {
    var r := Locate(text, b).value;
    NextNlFirst(text, r.start);
    PrevNlLast(text, r.endAt);
  }

  /** An occurrence that starts at or before a newline ends before it. */
  lemma WithinLine(text: string, pat: string, p: nat, nl: nat)
    requires NoNewline(pat) && OccursAt(text, pat, p) && p <= nl < |text| && text[nl] == NL
    ensures p + |pat| <= nl
  {
    MatchesAt(text, pat, p);
  }

  // ----- one block -----

  /** head ends with the line of the begin marker, at start. */
  ghost predicate Opens(head: string, b: Block, start: nat) {
    && head != "" && WholeLines(head) && start < |head|
    && Find(head, b.begin) == start && NextNl(head, start) == |head| - 1
  }

  /** tail starts with the line of the end marker, which is found at e. */
  ghost predicate Closes(tail: string, b: Block, e: nat) {
    && e <= |tail| && Find(tail, b.end) == e && NoNewline(tail[..e])
  }

  /** The line of the begin marker is found whatever follows it. */
  lemma OpensAny(head: string, b: Block, start: nat, x: string)
    requires MarkerOk(b) && Opens(head, b, start)
    ensures Find(head + x, b.begin) == start && NextNl(head + x, start) == |head| - 1
  {
    FindConcat(head, x, b.begin);
    NextNlFirst(head, start);
    NextNlIs(head + x, start, |head| - 1);
  }

  /** A located region splits the text into a head that opens it, the lines between and a
      tail that closes it, when its end comes after its begin. */
  lemma Split(text: string, b: Block) returns (e: nat)
    requires MarkerOk(b) && Locate(text, b).Ok? && Locate(text, b).value.endAt >= Locate(text, b).value.lo
    ensures var r := Locate(text, b).value;
            && r.lo <= r.hi <= |text| && WholeLines(text[r.lo..r.hi]) && r.endAt == r.hi + e
            && Opens(text[..r.lo], b, r.start) && Closes(text[r.hi..], b, e)
            && Find(text[..r.lo], b.end) == -1 && Find(text[r.lo..r.hi], b.end) == -1
  {
    RegionFacts(text, b);
    var r := Locate(text, b).value;
    e := r.endAt - r.hi;
    SplitHead(text, b);
    SplitTail(text, b);
  }

  lemma SplitHead(text: string, b: Block)
    requires MarkerOk(b) && Locate(text, b).Ok?
    ensures var r := Locate(text, b).value; r.lo <= |text| && Opens(text[..r.lo], b, r.start)
  {
    RegionFacts(text, b);
    RegionLines(text, b);
    var r := Locate(text, b).value;
    var head := text[..r.lo];
    assert text == head + text[r.lo..];
    FindWithin(head, text[r.lo..], "", b.begin);
    NextNlIs(head, r.start, r.lo - 1);
  }

  lemma SplitTail(text: string, b: Block)
    requires MarkerOk(b) && Locate(text, b).Ok? && Locate(text, b).value.endAt >= Locate(text, b).value.lo
    ensures var r := Locate(text, b).value;
            && r.lo <= r.hi <= r.endAt <= |text| && Closes(text[r.hi..], b, r.endAt - r.hi)
            && Find(text[..r.lo], b.end) == -1 && Find(text[r.lo..r.hi], b.end) == -1
  {
    RegionFacts(text, b);
    RegionLines(text, b);
    var r := Locate(text, b).value;
    assert text == text[..r.lo] + text[r.lo..r.hi] + text[r.hi..];
    SplitEnd(text[..r.lo], text[r.lo..r.hi], text[r.hi..], b, r.endAt - r.hi);
    assert forall k :: 0 <= k < r.endAt - r.hi ==> text[r.hi..][k] == text[r.hi + k];
  }

  lemma SplitEnd(head: string, mid: string, tail: string, b: Block, e: nat)
    requires MarkerOk(b) && WholeLines(head) && WholeLines(mid)
    requires Find(head + mid + tail, b.end) == |head| + |mid| + e
    ensures Find(head, b.end) == -1 && Find(mid, b.end) == -1 && Find(tail, b.end) == e
  {
    assert head + mid + tail == head + (mid + tail);
    FindBeyond(head, mid + tail, b.end);
    FindBeyond(mid, tail, b.end);
  }

  /** Whole lines free of the end marker between a head and a tail make a region. */
  lemma Compose(head: string, mid: string, tail: string, b: Block, start: nat, e: nat)
    requires MarkerOk(b) && Opens(head, b, start) && Closes(tail, b, e)
    requires WholeLines(mid) && Find(mid, b.end) == -1 && Find(head, b.end) == -1
    ensures Locate(head + mid + tail, b) == Ok(Region(start, |head|, |head| + |mid|, |head| + |mid| + e))
  {
    assert head + mid + tail == head + (mid + tail);
    OpensAny(head, b, start, mid + tail);
    FindPast(mid, tail, b.end);
    FindPast(head, mid + tail, b.end);
    PrevNlAt(head + mid, tail, e);
  }

  lemma PrevNlAt(front: string, tail: string, e: nat)
    requires front != "" && WholeLines(front) && e <= |tail| && NoNewline(tail[..e])
    ensures PrevNl(front + tail, |front| + e) == |front| - 1
  {
    forall k | |front| <= k < |front| + e ensures (front + tail)[k] != NL {
      assert (front + tail)[k] == tail[..e][k - |front|];
    }
    PrevNlIs(front + tail, |front| + e, |front| - 1);
  }

  /** A render that fits between markers: whole lines, without the block's own end marker. */
  predicate RenderFits(b: Block) {
    WholeLines(b.render) && Find(b.render, b.end) == -1
  }

  /** A fitting render is found exactly where it was written. */
  lemma FitsStays(text: string, b: Block)
    requires MarkerOk(b) && Locate(text, b).Ok? && Locate(text, b).value.endAt >= Locate(text, b).value.lo
    requires RenderFits(b)
    ensures Rewrite(text, b).Ok?
    ensures Rewrite(Rewrite(text, b).value, b) == Rewrite(text, b)
    ensures var r := Locate(text, b).value;
            Locate(Rewrite(text, b).value, b) ==
                Ok(Region(r.start, r.lo, r.lo + |b.render|, r.lo + |b.render| + r.endAt - r.hi))
  {
    var t, e := FitsText(text, b);
  }

  lemma FitsText(text: string, b: Block) returns (t: string, e: nat)
    requires MarkerOk(b) && Locate(text, b).Ok? && Locate(text, b).value.endAt >= Locate(text, b).value.lo
    requires RenderFits(b)
    ensures Rewrite(text, b) == Ok(t) && Rewrite(t, b) == Ok(t)
    ensures var r := Locate(text, b).value;
            e == r.endAt - r.hi && Locate(t, b) == Ok(Region(r.start, r.lo, r.lo + |b.render|, r.lo + |b.render| + e))
  {
    var head, tail;
    head, tail, e := Ends(text, b);
    FitsBetween(head, tail, b, Locate(text, b).value.start, e);
    t := head + b.render + tail;
  }

  /** What a rewrite keeps of the text. */
  lemma Ends(text: string, b: Block) returns (head: string, tail: string, e: nat)
    requires MarkerOk(b) && Locate(text, b).Ok? && Locate(text, b).value.endAt >= Locate(text, b).value.lo
    ensures Rewrite(text, b) == Ok(head + b.render + tail)
    ensures var r := Locate(text, b).value;
            |head| == r.lo && e == r.endAt - r.hi && Framed(head, tail, b, r.start, e)
  {
    e := Split(text, b);
    head, tail := text[..Locate(text, b).value.lo], text[Locate(text, b).value.hi..];
  }

  /** head and tail stand around b's region; a folded definition. */
  ghost predicate Framed(head: string, tail: string, b: Block, start: nat, e: nat) {
    forall k :: Opened(head, k) ==> Opens(head, b, start) && Closes(tail, b, e) && Find(head, b.end) == -1
  }

  lemma FitsBetween(head: string, tail: string, b: Block, start: nat, e: nat)
    requires MarkerOk(b) && Framed(head, tail, b, start, e) && RenderFits(b)
    ensures var t := head + b.render + tail;
            && Locate(t, b) == Ok(Region(start, |head|, |head| + |b.render|, |head| + |b.render| + e))
            && Rewrite(t, b) == Ok(t)
  {
    assert Opened(head, 0);
    Compose(head, b.render, tail, b, start, e);
    Rewritten(head, b.render, tail, b, start, e);
  }

  /** Rewriting a composed text replaces just what stands between head and tail. */
  lemma Rewritten(head: string, mid: string, tail: string, b: Block, start: nat, e: nat)
    requires Locate(head + mid + tail, b) == Ok(Region(start, |head|, |head| + |mid|, |head| + |mid| + e))
    ensures Rewrite(head + mid + tail, b) == Ok(head + b.render + tail)
  {
    var t := head + mid + tail;
    assert t[..|head|] == head && t[|head| + |mid|..] == tail;
  }

  /** If the end marker comes first, each rewrite only makes the text longer. */
  lemma EndBeforeBegin(text: string, b: Block)
    requires MarkerOk(b) && Locate(text, b).Ok? && Locate(text, b).value.endAt < Locate(text, b).value.lo
    ensures Rewrite(text, b).Ok? && Rewrite(Rewrite(text, b).value, b) != Rewrite(text, b)
  {
    RegionFacts(text, b);
    SplitHead(text, b);
    var r := Locate(text, b).value;
    var head, x, y := text[..r.lo], text[r.lo..], b.render + text[r.hi..];
    assert text == head + x && Rewrite(text, b).value == head + y by {
      assert head + (b.render + text[r.hi..]) == head + b.render + text[r.hi..];
    }
    SameRegion(head, x, y, b, r);
    assert |(head + y)[..r.lo] + b.render + (head + y)[r.hi..]| == r.lo + |b.render| + |head + y| - r.hi;
  }

  /** A region that lies inside whole lines does not depend on what follows them. */
  lemma SameRegion(head: string, x: string, y: string, b: Block, r: Region)
    requires MarkerOk(b) && head != "" && WholeLines(head)
    requires Locate(head + x, b) == Ok(r) && r.lo <= |head| && r.endAt < |head|
    ensures Locate(head + y, b) == Ok(r)
  {
    RegionFacts(head + x, b);
    FindWithin(head, x, y, b.begin);
    FindWithin(head, x, y, b.end);
    SameLines(head, x, y, b, r);
  }

  lemma SameLines(head: string, x: string, y: string, b: Block, r: Region)
    requires Locate(head + x, b) == Ok(r) && r.start < r.lo <= |head| && r.hi <= r.endAt < |head|
    ensures NextNl(head + y, r.start) == r.lo - 1 && PrevNl(head + y, r.endAt) == r.hi - 1
  {
    RegionLines(head + x, b);
    assert forall k :: 0 <= k < |head| ==> (head + y)[k] == (head + x)[k];
    NextNlIs(head + y, r.start, r.lo - 1);
    PrevNlIs(head + y, r.endAt, r.hi - 1);
  }

  /** A render that does not fit is not found where it was written. */
  lemma MisfitMoves(text: string, b: Block)
    requires MarkerOk(b) && Locate(text, b).Ok? && Locate(text, b).value.endAt >= Locate(text, b).value.lo
    requires !RenderFits(b)
    ensures Rewrite(text, b).Ok? && Rewrite(Rewrite(text, b).value, b) != Rewrite(text, b)
  {
    var e := Split(text, b);
    var r := Locate(text, b).value;
    MisfitText(text[..r.lo], text[r.hi..], b, r.start);
  }

  lemma MisfitText(head: string, tail: string, b: Block, start: nat)
    requires MarkerOk(b) && !RenderFits(b) && Opens(head, b, start) && Find(head, b.end) == -1
    ensures Rewrite(head + b.render + tail, b) != Ok(head + b.render + tail)
  {
    var t := head + b.render + tail;
    assert t == head + (b.render + tail);
    OpensAny(head, b, start, b.render + tail);
    if Locate(t, b).Ok? {
      MisfitEnd(head, b, tail);
      var hi := Locate(t, b).value.hi;
      assert |t[..|head|] + b.render + t[hi..]| == |head| + |b.render| + |t| - hi;
    }
  }

  lemma MisfitEnd(head: string, b: Block, tail: string)
    requires MarkerOk(b) && !RenderFits(b) && head != "" && WholeLines(head)
    requires Find(head, b.end) == -1 && Find(head + b.render + tail, b.end) >= 0
    ensures PrevNl(head + b.render + tail, Find(head + b.render + tail, b.end)) + 1 != |head + b.render|
  {
    var t := head + b.render + tail;
    if WholeLines(b.render) {
      assert t == head + (b.render + tail);
      FindConcat(b.render, tail, b.end);
      FindConcat(head, b.render + tail, b.end);
      FindFirst(b.render, b.end);
    } else {
      assert t[|head + b.render| - 1] == b.render[|b.render| - 1];
    }
  }

  /** A rewrite is final exactly when the end marker's line comes after the begin marker's and
      the render consists of whole lines free of the end marker. */
  lemma RewriteFinalIff(text: string, b: Block)
    requires MarkerOk(b) && Locate(text, b).Ok?
    ensures Rewrite(text, b).Ok?
    ensures Rewrite(Rewrite(text, b).value, b) == Rewrite(text, b)
        <==> Locate(text, b).value.endAt >= Locate(text, b).value.lo && RenderFits(b)
  {
    RegionFacts(text, b);
    if Locate(text, b).value.endAt < Locate(text, b).value.lo {
      EndBeforeBegin(text, b);
    } else if RenderFits(b) {
      FitsStays(text, b);
    } else {
      MisfitMoves(text, b);
    }
  }

  // ----- several blocks in one text -----

  ghost predicate Placed(text: string, b: Block) {
    MarkerOk(b) && Locate(text, b).Ok? && Locate(text, b).value.endAt >= Locate(text, b).value.lo
  }

  /** a's markers, and all between them, come before b's. */
  predicate Before(ra: Region, a: Block, rb: Region) {
    ra.endAt + |a.end| <= rb.start
  }

  ghost predicate Apart(text: string, a: Block, b: Block)
    requires Placed(text, a) && Placed(text, b)
  {
    Before(Locate(text, a).value, a, Locate(text, b).value) || Before(Locate(text, b).value, b, Locate(text, a).value)
  }

  /** b's render consists of whole lines without a's markers. */
  predicate Clean(b: Block, a: Block) {
    WholeLines(b.render) && Find(b.render, a.begin) == -1 && Find(b.render, a.end) == -1
  }

  function Shift(r: Region, old0: nat, new0: nat): Region
    requires r.start >= old0 && r.lo >= old0 && r.hi >= old0 && r.endAt >= old0
  {
    Region(r.start - old0 + new0, r.lo - old0 + new0, r.hi - old0 + new0, r.endAt - old0 + new0)
  }

  /** A region behind some whole lines moves with them when they are replaced by others that
      hold none of its markers. */
  lemma ShiftRegion(front: string, front': string, tail: string, a: Block, r: Region)
    requires MarkerOk(a) && WholeLines(front) && WholeLines(front')
    requires Locate(front + tail, a) == Ok(r) && r.start >= |front| && r.endAt >= r.lo
    requires Find(front', a.begin) == -1 && Find(front', a.end) == -1
    ensures r.lo > |front| && r.hi > |front| && Locate(front' + tail, a) == Ok(Shift(r, |front|, |front'|))
  {
    EndsBehind(front, tail, a, r);
    ShiftPlaces(front, front', tail, a, r);
  }

  lemma ShiftPlaces(front: string, front': string, tail: string, a: Block, r: Region)
    requires MarkerOk(a) && WholeLines(front) && WholeLines(front')
    requires |front| <= r.start <= |front + tail| && |front| <= r.endAt <= |front + tail|
    requires |front| < r.lo && |front| < r.hi
    requires Find(front + tail, a.begin) == r.start && Find(front + tail, a.end) == r.endAt
    requires NextNl(front + tail, r.start) == r.lo - 1 && PrevNl(front + tail, r.endAt) == r.hi - 1
    requires Find(front', a.begin) == -1 && Find(front', a.end) == -1
    ensures Locate(front' + tail, a) == Ok(Shift(r, |front|, |front'|))
  {
    ShiftStart(front, front', tail, a.begin, r.start, r.lo);
    ShiftEnd(front, front', tail, a.end, r.endAt, r.hi);
    LocateIs(front' + tail, a, Shift(r, |front|, |front'|));
  }

  lemma ShiftStart(front: string, front': string, tail: string, pat: string, p: nat, lo: nat)
    requires WholeLines(front) && WholeLines(front') && NoNewline(pat) && pat != ""
    requires |front| <= p <= |front + tail| && Find(front + tail, pat) == p && Find(front', pat) == -1
    requires |front| < lo && NextNl(front + tail, p) == lo - 1
    ensures Find(front' + tail, pat) == p - |front| + |front'| <= |front' + tail|
    ensures NextNl(front' + tail, p - |front| + |front'|) == lo - |front| + |front'| - 1
  {
    ShiftFind(front, front', tail, pat, p);
    ShiftNext(front, front', tail, p);
  }

  lemma ShiftEnd(front: string, front': string, tail: string, pat: string, q: nat, hi: nat)
    requires WholeLines(front) && WholeLines(front') && NoNewline(pat) && pat != ""
    requires |front| <= q <= |front + tail| && Find(front + tail, pat) == q && Find(front', pat) == -1
    requires |front| < hi && PrevNl(front + tail, q) == hi - 1
    ensures Find(front' + tail, pat) == q - |front| + |front'| <= |front' + tail|
    ensures PrevNl(front' + tail, q - |front| + |front'|) == hi - |front| + |front'| - 1
  {
    ShiftFind(front, front', tail, pat, q);
    ShiftPrev(front, front', tail, q);
  }

  /** The region's line ends lie behind the front too. */
  lemma EndsBehind(front: string, tail: string, a: Block, r: Region)
    requires MarkerOk(a) && Locate(front + tail, a) == Ok(r) && r.start >= |front| && r.endAt >= r.lo
    ensures |front| < r.lo && |front| < r.hi && |front| <= r.endAt <= |front + tail| && r.start <= |front + tail|
    ensures Find(front + tail, a.begin) == r.start && Find(front + tail, a.end) == r.endAt
    ensures NextNl(front + tail, r.start) == r.lo - 1 && PrevNl(front + tail, r.endAt) == r.hi - 1
  {
    RegionFacts(front + tail, a);
  }

  lemma LocateIs(text: string, b: Block, r: Region)
    requires Find(text, b.begin) == r.start && Find(text, b.end) == r.endAt
    requires NextNl(text, r.start) == r.lo - 1 >= 0 && PrevNl(text, r.endAt) == r.hi - 1 >= 0
    ensures Locate(text, b) == Ok(r)
  {
  }

  lemma ShiftFind(front: string, front': string, tail: string, pat: string, p: nat)
    requires WholeLines(front) && WholeLines(front') && NoNewline(pat) && pat != ""
    requires Find(front + tail, pat) == p >= |front| && Find(front', pat) == -1
    ensures p - |front| <= |tail|
    ensures Find(front' + tail, pat) == p - |front| + |front'|
  {
    FindBeyond(front, tail, pat);
    FindPast(front', tail, pat);
  }

  lemma ShiftNext(front: string, front': string, tail: string, p: nat)
    requires |front| <= p <= |front + tail| && NextNl(front + tail, p) >= 0
    ensures NextNl(front' + tail, p - |front| + |front'|) == NextNl(front + tail, p) - |front| + |front'|
  {
    NextNlShift(front, tail, p - |front|);
    NextNlShift(front', tail, p - |front|);
  }

  lemma ShiftPrev(front: string, front': string, tail: string, p: nat)
    requires |front| <= p <= |front + tail| && PrevNl(front + tail, p) >= |front|
    ensures PrevNl(front' + tail, p - |front| + |front'|) == PrevNl(front + tail, p) - |front| + |front'|
  {
    PrevNlShift(front, tail, p - |front|);
    PrevNlShift(front', tail, p - |front|);
  }

  /** The three parts of a text around b's region. */
  lemma Parts(text: string, b: Block) returns (head: string, mid: string, tail: string)
    requires Placed(text, b)
    ensures text == head + mid + tail && Rewrite(text, b) == Ok(head + b.render + tail)
    ensures |head| == Locate(text, b).value.lo && |head + mid| == Locate(text, b).value.hi
    ensures WholeLines(head) && WholeLines(head + mid)
    ensures Locate(text, b).value.hi <= Locate(text, b).value.endAt
  {
    RegionFacts(text, b);
    var rb := Locate(text, b).value;
    head, mid, tail := text[..rb.lo], text[rb.lo..rb.hi], text[rb.hi..];
  }

  lemma MovedAfter(text: string, a: Block, b: Block) returns (ra: Region, q: Region, t: string)
    requires Placed(text, a) && Placed(text, b) && Before(Locate(text, b).value, b, Locate(text, a).value)
    requires Clean(b, a)
    ensures Rewrite(text, b) == Ok(t) && Locate(text, a) == Ok(ra) && Locate(t, a) == Ok(q)
    ensures var rb := Locate(text, b).value;
            && ra.start >= rb.hi && ra.lo >= rb.hi && ra.hi >= rb.hi && ra.endAt >= rb.hi
            && q == Shift(ra, rb.hi, rb.lo + |b.render|)
    ensures ra.lo <= ra.hi <= |text| && q.lo <= q.hi <= |t| && t[q.lo..q.hi] == text[ra.lo..ra.hi]
  {
    var head, mid, tail := Parts(text, b);
    ra := Locate(text, a).value;
    AfterText(head, mid, tail, b, a, ra);
    t := head + b.render + tail;
    q := Shift(ra, |head + mid|, |head + b.render|);
  }

  lemma MovedBefore(text: string, a: Block, b: Block) returns (ra: Region, t: string)
    requires Placed(text, a) && Placed(text, b) && Before(Locate(text, a).value, a, Locate(text, b).value)
    ensures Rewrite(text, b) == Ok(t) && Locate(text, a) == Ok(ra) && Locate(t, a) == Ok(ra)
    ensures ra.lo <= ra.hi <= |text| && ra.hi <= |t| && t[ra.lo..ra.hi] == text[ra.lo..ra.hi]
  {
    RegionFacts(text, a);
    RegionFacts(text, b);
    ra := Locate(text, a).value;
    var head, mid, tail := Parts(text, b);
    t := head + b.render + tail;
    assert head + (mid + tail) == text && head + (b.render + tail) == t;
    BeforeText(head, mid + tail, b.render + tail, a, ra);
  }

  lemma BeforeText(head: string, x: string, y: string, a: Block, ra: Region)
    requires MarkerOk(a) && head != "" && WholeLines(head)
    requires Locate(head + x, a) == Ok(ra) && ra.lo <= ra.hi <= ra.endAt < |head|
    ensures Locate(head + y, a) == Ok(ra) && (head + y)[ra.lo..ra.hi] == (head + x)[ra.lo..ra.hi]
  {
    SameRegion(head, x, y, a, ra);
    assert (head + y)[ra.lo..ra.hi] == head[ra.lo..ra.hi] == (head + x)[ra.lo..ra.hi];
  }

  lemma AfterText(head: string, mid: string, tail: string, b: Block, a: Block, ra: Region)
    requires MarkerOk(a) && Clean(b, a) && WholeLines(head) && WholeLines(head + mid)
    requires Locate(head + mid + tail, a) == Ok(ra) && ra.start >= |head + mid| && ra.endAt >= ra.lo
    ensures |head + mid| < ra.lo <= ra.hi <= |head + mid + tail| && ra.hi <= ra.endAt
    ensures Locate(head + b.render + tail, a) == Ok(Shift(ra, |head + mid|, |head + b.render|))
    ensures var q := Shift(ra, |head + mid|, |head + b.render|);
            q.hi <= |head + b.render + tail| &&
                (head + b.render + tail)[q.lo..q.hi] == (head + mid + tail)[ra.lo..ra.hi]
  {
    FrontClean(head, mid, tail, b, a);
    ShiftedText(head + mid, head + b.render, tail, a, ra);
  }

  lemma ShiftedText(front: string, front': string, tail: string, a: Block, ra: Region)
    requires MarkerOk(a) && WholeLines(front) && WholeLines(front')
    requires Locate(front + tail, a) == Ok(ra) && ra.start >= |front| && ra.endAt >= ra.lo
    requires Find(front', a.begin) == -1 && Find(front', a.end) == -1
    ensures |front| < ra.lo <= ra.hi <= |front + tail| && ra.hi <= ra.endAt
    ensures Locate(front' + tail, a) == Ok(Shift(ra, |front|, |front'|))
    ensures var q := Shift(ra, |front|, |front'|);
            q.hi <= |front' + tail| && (front' + tail)[q.lo..q.hi] == (front + tail)[ra.lo..ra.hi]
  {
    RegionFacts(front + tail, a);
    ShiftRegion(front, front', tail, a, ra);
    SliceShift(front, front', tail, ra.lo, ra.hi);
  }

  lemma SliceShift(front: string, front': string, tail: string, lo: nat, hi: nat)
    requires |front| <= lo <= hi <= |front + tail|
    ensures (front' + tail)[lo - |front| + |front'|..hi - |front| + |front'|] == (front + tail)[lo..hi]
  {
  }

  /** If a's markers are first found in the tail, neither the head nor the new front has them. */
  lemma FrontClean(head: string, mid: string, tail: string, b: Block, a: Block)
    requires MarkerOk(a) && WholeLines(head) && WholeLines(head + mid) && Clean(b, a)
    requires Find(head + mid + tail, a.begin) >= |head + mid| && Find(head + mid + tail, a.end) >= |head + mid|
    ensures WholeLines(head + b.render)
    ensures Find(head + b.render, a.begin) == -1 && Find(head + b.render, a.end) == -1
  {
    assert head + mid + tail == head + (mid + tail);
    FindBeyond(head, mid + tail, a.begin);
    FindBeyond(head, mid + tail, a.end);
    FindPast(head, b.render, a.begin);
    FindPast(head, b.render, a.end);
  }

  /** The text already holds b's render between b's markers. */
  ghost predicate Stable(text: string, b: Block) {
    Rewrite(text, b) == Ok(text)
  }

  /** ... which is what stands between them. */
  lemma StableIff(text: string, b: Block)
    requires Placed(text, b)
    ensures Locate(text, b).value.lo <= Locate(text, b).value.hi <= |text|
    ensures Stable(text, b) <==> text[Locate(text, b).value.lo..Locate(text, b).value.hi] == b.render
  {
    var head, mid, tail := Parts(text, b);
    assert text[|head|..|head + mid|] == mid;
    if head + b.render + tail == head + mid + tail {
      assert |b.render| == |mid|;
      assert mid == (head + mid + tail)[|head|..|head| + |mid|];
      assert b.render == (head + b.render + tail)[|head|..|head| + |mid|];
    }
  }

  /** Rewriting b keeps every other block placed, apart and, if it was, stable. */
  lemma OthersKept(text: string, a: Block, b: Block) returns (t: string)
    requires Placed(text, a) && Placed(text, b) && Apart(text, a, b) && Clean(b, a)
    ensures Rewrite(text, b) == Ok(t) && Placed(t, a)
    ensures Stable(text, a) <==> Stable(t, a)
    ensures var ra, rb := Locate(text, a).value, Locate(text, b).value;
            && (Before(ra, a, rb) ==> Locate(t, a) == Ok(ra))
            && (!Before(ra, a, rb) ==>
                  && ra.start >= rb.hi && ra.lo >= rb.hi && ra.hi >= rb.hi && ra.endAt >= rb.hi
                  && Locate(t, a) == Ok(Shift(ra, rb.hi, rb.lo + |b.render|)))
  {
    StableIff(text, a);
    if Before(Locate(text, a).value, a, Locate(text, b).value) {
      var ra;
      ra, t := MovedBefore(text, a, b);
    } else {
      var ra, q;
      ra, q, t := MovedAfter(text, a, b);
    }
    StableIff(t, a);
  }

  /** Rewriting b makes b stable, in place. */
  lemma SelfStable(text: string, b: Block) returns (t: string)
    requires Placed(text, b) && RenderFits(b)
    ensures Rewrite(text, b) == Ok(t) && Placed(t, b) && Stable(t, b)
    ensures var r := Locate(text, b).value;
            r.hi <= r.endAt &&
            Locate(t, b) == Ok(Region(r.start, r.lo, r.lo + |b.render|, r.lo + |b.render| + r.endAt - r.hi))
  {
    RegionFacts(text, b);
    FitsStays(text, b);
    t := Rewrite(text, b).value;
  }

  /** Blocks apart from b, and from each other, stay apart when b is rewritten. */
  lemma ApartKept(text: string, a: Block, c: Block, b: Block) returns (t: string)
    requires Placed(text, a) && Placed(text, b) && Placed(text, c)
    requires a == b || (Apart(text, a, b) && Clean(b, a))
    requires c == b || (Apart(text, c, b) && Clean(b, c))
    requires Apart(text, a, c) && RenderFits(b)
    ensures Rewrite(text, b) == Ok(t) && Placed(t, a) && Placed(t, c) && Apart(t, a, c)
  {
    RegionFacts(text, a);
    RegionFacts(text, b);
    RegionFacts(text, c);
    t := SelfStable(text, b);
    if a != b { var u := OthersKept(text, a, b); }
    if c != b { var u := OthersKept(text, c, b); }
  }

  // ----- two rewrites -----

  function Splice(s: string, i: nat, j: nat, x: string): string
    requires i <= j <= |s|
  {
    s[..i] + x + s[j..]
  }

  lemma SpliceTwice(s: string, i: nat, j: nat, x: string, y: string)
    requires i <= j <= |s|
    ensures Splice(Splice(s, i, j, x), i, i + |x|, y) == Splice(s, i, j, y)
  {
    var t := Splice(s, i, j, x);
    assert t[..i] == s[..i] && t[i + |x|..] == s[j..];
  }

  lemma SpliceFiveParts(p: string, q: string, r: string, u: string, v: string, x: string, y: string)
    ensures Splice(p + q + r + u + v, |p|, |p + q|, x) == p + x + r + u + v
    ensures Splice(p + q + r + u + v, |p + q + r|, |p + q + r + u|, y) == p + q + r + y + v
  {
    var s := p + q + r + u + v;
    assert s[..|p|] == p && s[|p + q|..] == r + u + v;
    assert s[..|p + q + r|] == p + q + r && s[|p + q + r + u|..] == v;
    assert p + x + (r + u + v) == p + x + r + u + v;
  }

  /** Replacing two stretches, one behind the other, in either order. */
  lemma SpliceBoth(s: string, i: nat, j: nat, k: nat, l: nat, x: string, y: string)
    requires i <= j <= k <= l <= |s|
    ensures |Splice(s, i, j, x)| == |s| - j + i + |x| && |Splice(s, k, l, y)| == |s| - l + k + |y|
    ensures Splice(Splice(s, k, l, y), i, j, x) == Splice(Splice(s, i, j, x), k - j + (i + |x|), l - j + (i + |x|), y)
  {
    var p, q, r, u, v := s[..i], s[i..j], s[j..k], s[k..l], s[l..];
    assert s == p + q + r + u + v;
    assert |p + q| == j && |p + q + r| == k && |p + q + r + u| == l;
    assert |p + x + r| == k - j + (i + |x|) && |p + x + r + u| == l - j + (i + |x|);
    SpliceParts(p, q, r, u, v, x, y);
  }

  lemma SpliceParts(p: string, q: string, r: string, u: string, v: string, x: string, y: string)
    ensures var s := p + q + r + u + v;
            Splice(Splice(s, |p + q + r|, |p + q + r + u|, y), |p|, |p + q|, x) ==
              Splice(Splice(s, |p|, |p + q|, x), |p + x + r|, |p + x + r + u|, y)
  {
    SpliceFiveParts(p, q, r, u, v, x, y);
    SpliceFiveParts(p, x, r, u, v, x, y);
    SpliceFiveParts(p, q, r, y, v, x, y);
  }

  predicate SameMarkers(a: Block, b: Block) {
    a.begin == b.begin && a.end == b.end
  }

  lemma MarkersDecide(text: string, a: Block, b: Block)
    requires SameMarkers(a, b)
    ensures Locate(text, a) == Locate(text, b)
  {
  }

  /** The block with nothing to write: rewriting it leaves only what is not its own. */
  function Blank(b: Block): Block {
    b.(render := "")
  }

  lemma BlankFits(b: Block, a: Block)
    requires MarkerOk(a) && MarkerOk(b)
    ensures RenderFits(Blank(b)) && Clean(Blank(b), a)
  {
  }

  lemma RewriteSplices(text: string, b: Block)
    requires Placed(text, b)
    ensures var r := Locate(text, b).value;
            r.lo <= r.hi <= |text| && Rewrite(text, b) == Ok(Splice(text, r.lo, r.hi, b.render))
  {
    RegionFacts(text, b);
  }

  /** Rewriting b turns text into t by replacing what stands from lo to hi; a folded definition. */
  ghost predicate Writes(text: string, b: Block, lo: nat, hi: nat, t: string) {
    forall k :: Opened(text, k) ==>
      lo <= hi <= |text| && t == Splice(text, lo, hi, b.render) && Rewrite(text, b) == Ok(t)
  }

  lemma WritesAt(text: string, b: Block, lo: nat, hi: nat) returns (t: string)
    requires Placed(text, b) && Locate(text, b).value.lo == lo && Locate(text, b).value.hi == hi
    ensures Writes(text, b, lo, hi, t) && Rewrite(text, b) == Ok(t)
  {
    RewriteSplices(text, b);
    t := Rewrite(text, b).value;
  }

  lemma WritesGive(text: string, b: Block, lo: nat, hi: nat, t: string)
    requires Writes(text, b, lo, hi, t)
    ensures lo <= hi <= |text| && t == Splice(text, lo, hi, b.render)
  {
    assert Opened(text, 0);
  }

  lemma WritesDo(text: string, b: Block, lo: nat, hi: nat, t: string)
    requires Writes(text, b, lo, hi, t)
    ensures Rewrite(text, b) == Ok(t)
  {
    assert Opened(text, 0);
  }

  /** A later rewrite between the same markers overrules an earlier one. */
  lemma RewriteOver(text: string, b: Block, c: Block) returns (t: string)
    requires Placed(text, b) && RenderFits(b) && SameMarkers(b, c)
    ensures Rewrite(text, b) == Ok(t) && Placed(t, b) && Placed(t, c)
    ensures Rewrite(t, c) == Rewrite(text, c)
  {
    t := SelfStable(text, b);
    var r := Locate(text, b).value;
    MarkersDecide(text, b, c);
    MarkersDecide(t, b, c);
    RewriteSplices(text, b);
    RewriteSplices(text, c);
    RewriteSplices(t, c);
    SpliceTwice(text, r.lo, r.hi, b.render, c.render);
  }

  lemma CommuteBefore(text: string, a: Block, b: Block)
    requires Placed(text, a) && Placed(text, b) && Clean(b, a) && Clean(a, b)
    requires Before(Locate(text, a).value, a, Locate(text, b).value)
    ensures Rewrite(text, a).Ok? && Rewrite(text, b).Ok?
    ensures Rewrite(Rewrite(text, b).value, a) == Rewrite(Rewrite(text, a).value, b)
  {
    var ta, tb, x := Commuted(text, a, b);
  }

  lemma Commuted(text: string, a: Block, b: Block) returns (ta: string, tb: string, x: string)
    requires Placed(text, a) && Placed(text, b) && Clean(b, a) && Clean(a, b)
    requires Before(Locate(text, a).value, a, Locate(text, b).value)
    ensures Rewrite(text, a) == Ok(ta) && Rewrite(ta, b) == Ok(x)
    ensures Rewrite(text, b) == Ok(tb) && Rewrite(tb, a) == Ok(x)
  {
    var ra, rb := Locate(text, a).value, Locate(text, b).value;
    var y;
    RegionOrder(text, a, b);
    tb, x := FirstInSecond(text, a, b, ra, rb);
    ta, y := SecondInFirst(text, a, b, ra, rb);
    WritesMeet(text, ra, rb, a, b, ta, tb, x, y);
    WritesDo(text, a, ra.lo, ra.hi, ta);
    WritesDo(text, b, rb.lo, rb.hi, tb);
    WritesDo(tb, a, ra.lo, ra.hi, x);
    var q := Shift(rb, ra.hi, ra.lo + |a.render|);
    WritesDo(ta, b, q.lo, q.hi, y);
  }

  lemma FirstInSecond(text: string, a: Block, b: Block, ra: Region, rb: Region) returns (tb: string, x: string)
    requires Placed(text, a) && Placed(text, b) && Clean(b, a)
    requires Locate(text, a) == Ok(ra) && Locate(text, b) == Ok(rb) && Before(ra, a, rb)
    ensures Writes(text, b, rb.lo, rb.hi, tb) && Writes(tb, a, ra.lo, ra.hi, x)
  {
    var t := OthersKept(text, a, b);
    tb := WritesAt(text, b, rb.lo, rb.hi);
    x := WritesAt(tb, a, ra.lo, ra.hi);
  }

  lemma SecondInFirst(text: string, a: Block, b: Block, ra: Region, rb: Region) returns (ta: string, y: string)
    requires Placed(text, a) && Placed(text, b) && Clean(a, b)
    requires Locate(text, a) == Ok(ra) && Locate(text, b) == Ok(rb) && Before(ra, a, rb)
    ensures rb.start >= ra.hi && rb.lo >= ra.hi && rb.hi >= ra.hi && rb.endAt >= ra.hi
    ensures var q := Shift(rb, ra.hi, ra.lo + |a.render|);
            Writes(text, a, ra.lo, ra.hi, ta) && Writes(ta, b, q.lo, q.hi, y)
  {
    RegionOrder(text, a, b);
    var q := Shift(rb, ra.hi, ra.lo + |a.render|);
    var t := OthersKept(text, b, a);
    ta := WritesAt(text, a, ra.lo, ra.hi);
    y := WritesAt(ta, b, q.lo, q.hi);
  }

  lemma WritesMeet(text: string, ra: Region, rb: Region, a: Block, b: Block, ta: string, tb: string, x: string,
                   y: string)
    requires ra.lo <= ra.hi <= rb.lo <= rb.hi <= |text| && rb.start >= ra.hi && rb.endAt >= ra.hi
    requires Writes(text, a, ra.lo, ra.hi, ta) && Writes(text, b, rb.lo, rb.hi, tb)
    requires Writes(tb, a, ra.lo, ra.hi, x)
    requires var q := Shift(rb, ra.hi, ra.lo + |a.render|); Writes(ta, b, q.lo, q.hi, y)
    ensures x == y
  {
    var q := Shift(rb, ra.hi, ra.lo + |a.render|);
    WritesGive(text, a, ra.lo, ra.hi, ta);
    WritesGive(text, b, rb.lo, rb.hi, tb);
    WritesGive(tb, a, ra.lo, ra.hi, x);
    WritesGive(ta, b, q.lo, q.hi, y);
    SpliceBoth(text, ra.lo, ra.hi, rb.lo, rb.hi, a.render, b.render);
  }

  lemma RegionOrder(text: string, a: Block, b: Block)
    requires Placed(text, a) && Placed(text, b)
    requires Before(Locate(text, a).value, a, Locate(text, b).value)
    ensures var ra, rb := Locate(text, a).value, Locate(text, b).value;
            ra.lo <= ra.hi <= rb.lo <= rb.hi <= |text| && !Before(rb, b, ra) && rb.start >= ra.hi && rb.endAt >= ra.hi
  {
    RegionFacts(text, a);
    RegionFacts(text, b);
  }

  /** Rewriting two blocks that lie apart gives the same text in either order. */
  lemma RewritesCommute(text: string, a: Block, b: Block)
    requires Placed(text, a) && Placed(text, b) && Apart(text, a, b) && Clean(b, a) && Clean(a, b)
    ensures Rewrite(text, a).Ok? && Rewrite(text, b).Ok?
    ensures Rewrite(Rewrite(text, b).value, a) == Rewrite(Rewrite(text, a).value, b)
  {
    if Before(Locate(text, a).value, a, Locate(text, b).value) {
      CommuteBefore(text, a, b);
    } else {
      CommuteBefore(text, b, a);
    }
  }
}

module RegistryArtifacts {
  import opened TextSearch
  import opened MarkerBlocks

  const BEGIN: string := "netllm:generated:begin"
  const END: string := "netllm:generated:end"

  /** One generated region inside a file. */
  datatype Job = Job(path: string, block: Block)

  type Files = map<string, string>

  /** The block that a marker id addresses. */
  function MakeBlock(marker: string, render: string): Block {
    Block(BEGIN + ":" + marker, END + ":" + marker, render)
  }

  datatype Swept = Swept(files: Files, stale: seq<Job>)

  /** How one block's text is rewritten; `main` uses Rewrite. */
  type Rewriter = (string, Block) -> Result<string>

  /** One block rewrites what the earlier ones made of its file. */
  function Rewritten(rw: Rewriter, s: Swept, j: Job): Result<Swept> {
    if j.path !in s.files then MissingFile
    else
      var text := s.files[j.path];
      var t := rw(text, j.block);
      if t.Ok? then Ok(Swept(s.files[j.path := t.value], s.stale + if t.value != text then [j] else []))
      else if t.MissingMarker? then MissingMarker
      else if t.MissingNewline? then MissingNewline
      else MissingFile
  }

  /** The fold of `main`. */
  function Sweep(rw: Rewriter, files: Files, jobs: seq<Job>): Result<Swept> {
    if jobs == [] then Ok(Swept(files, []))
    else
      var r := Sweep(rw, files, jobs[..|jobs| - 1]);
      if r.Ok? then Rewritten(rw, r.value, jobs[|jobs| - 1]) else r
  }

  lemma SweepSnoc(rw: Rewriter, files: Files, jobs: seq<Job>, n: nat)
    requires n < |jobs|
    ensures var r := Sweep(rw, files, jobs[..n]);
            Sweep(rw, files, jobs[..n + 1]) == if r.Ok? then Rewritten(rw, r.value, jobs[n]) else r
  {
    assert jobs[..n + 1][..n] == jobs[..n];
  }

  /** One block more over the texts collected so far. */
  lemma OverlayStep(rw: Rewriter, files: Files, byPath: Files, stale: seq<Job>, j: Job, text: string)
    requires j.path in byPath || j.path in files
    requires text == if j.path in byPath then byPath[j.path] else files[j.path]
    requires rw(text, j.block).Ok?
    ensures var t := rw(text, j.block).value;
            Rewritten(rw, Swept(files + byPath, stale), j) ==
                Ok(Swept(files + byPath[j.path := t], if t != text then stale + [j] else stale))
  {
    var t := rw(text, j.block).value;
    assert stale + [] == stale && (files + byPath)[j.path] == text;
    assert (files + byPath)[j.path := t] == files + byPath[j.path := t];
  }

  /** What is on disk after one block. */
  function Apply(files: Files, j: Job): Files {
    if j.path in files && Rewrite(files[j.path], j.block).Ok?
      then files[j.path := Rewrite(files[j.path], j.block).value]
    else files
  }

  /** The files after all blocks, when none fails. */
  function Applied(files: Files, jobs: seq<Job>): Files {
    if jobs == [] then files else Apply(Applied(files, jobs[..|jobs| - 1]), jobs[|jobs| - 1])
  }

  predicate CanApply(files: Files, j: Job) {
    j.path in files && Rewrite(files[j.path], j.block).Ok?
  }

  /** The first n blocks have been rewritten; can the next one be? */
  ghost predicate Works(files: Files, jobs: seq<Job>, n: nat)
    requires n < |jobs|
  {
    CanApply(Applied(files, jobs[..n]), jobs[n])
  }

  /** Why a block cannot be rewritten: no file, a marker that is not in it, or no line end after
      the begin marker or before the end marker. */
  ghost predicate Why<T>(files: Files, j: Job, r: Result<T>) {
    if j.path !in files then r.MissingFile?
    else
      var text := files[j.path];
      var start, end := Find(text, j.block.begin), Find(text, j.block.end);
      if start == -1 || end == -1 then r.MissingMarker?
      else
        && r.MissingNewline?
        && 0 <= start <= |text| && 0 <= end <= |text|
        && (NL !in text[start..] || NL !in text[..end])
  }

  /** Block n is the first that cannot be rewritten, and r says why. */
  ghost predicate StopsAt<T>(files: Files, jobs: seq<Job>, n: nat, r: Result<T>)
    requires n < |jobs|
  {
    && (forall i :: 0 <= i < n ==> Works(files, jobs, i))
    && !Works(files, jobs, n) && Why(Applied(files, jobs[..n]), jobs[n], r)
  }

  lemma RewrittenWorks(s: Swept, j: Job)
    requires CanApply(s.files, j)
    ensures Rewritten(Rewrite, s, j).Ok? && Rewritten(Rewrite, s, j).value.files == Apply(s.files, j)
  {
  }

  lemma RewrittenFails(s: Swept, j: Job)
    requires !CanApply(s.files, j)
    ensures Why(s.files, j, Rewritten(Rewrite, s, j))
  {
    if j.path in s.files {
      var text, b := s.files[j.path], j.block;
      if Find(text, b.begin) != -1 && Find(text, b.end) != -1 {
        NextNlFirst(text, Find(text, b.begin));
        PrevNlLast(text, Find(text, b.end));
      }
    }
  }

  /** r is a sweep that rewrote all the blocks. */
  ghost predicate IsSweep(files: Files, jobs: seq<Job>, r: Result<Swept>) {
    r.Ok? && r.value.files == Applied(files, jobs)
  }

  lemma WorksNext(files: Files, jobs: seq<Job>, n: nat)
    requires n < |jobs| && Works(files, jobs, n) && IsSweep(files, jobs[..n], Sweep(Rewrite, files, jobs[..n]))
    ensures IsSweep(files, jobs[..n + 1], Sweep(Rewrite, files, jobs[..n + 1]))
  {
    SweepSnoc(Rewrite, files, jobs, n);
    RewrittenWorks(Sweep(Rewrite, files, jobs[..n]).value, jobs[n]);
    assert jobs[..n + 1] == jobs[..n] + [jobs[n]];
    AppliedSnoc(files, jobs[..n], jobs[n]);
  }

  lemma {:induction false} SweepWorks(files: Files, jobs: seq<Job>, n: nat)
    requires n <= |jobs| && forall i :: 0 <= i < n ==> Works(files, jobs, i)
    ensures IsSweep(files, jobs[..n], Sweep(Rewrite, files, jobs[..n]))
  {
    if n > 0 {
      SweepWorks(files, jobs, n - 1);
      WorksNext(files, jobs, n - 1);
    }
  }

  /** A block that cannot be rewritten stops the sweep. */
  lemma SweepFails(files: Files, jobs: seq<Job>, n: nat)
    requires n < |jobs| && (forall i :: 0 <= i < n ==> Works(files, jobs, i)) && !Works(files, jobs, n)
    ensures StopsAt(files, jobs, n, Sweep(Rewrite, files, jobs)) && !Sweep(Rewrite, files, jobs).Ok?
  {
    SweepWorks(files, jobs, n);
    SweepSnoc(Rewrite, files, jobs, n);
    RewrittenFails(Sweep(Rewrite, files, jobs[..n]).value, jobs[n]);
    SweepStops(Rewrite, files, jobs, n + 1);
  }

  lemma FirstFailure(files: Files, jobs: seq<Job>, n: nat) returns (k: nat)
    requires n < |jobs| && !Works(files, jobs, n)
    ensures k < |jobs| && !Works(files, jobs, k) && forall i :: 0 <= i < k ==> Works(files, jobs, i)
  {
    k := 0;
    while Works(files, jobs, k)
      invariant k <= n && forall i :: 0 <= i < k ==> Works(files, jobs, i)
      decreases n - k
    {
      k := k + 1;
    }
  }

  /** What `main` does: it fails exactly when some block cannot be rewritten in turn, at the
      first such one. Otherwise, with --check the files stay, and the code is 0 exactly when
      every block is up to date; without it all the rewrites are on disk and the code is 0. */
  ghost predicate Outcomes(files: Files, jobs: seq<Job>, check: bool, r: Result<Outcome>) {
    && (r.Ok? <==> forall i :: 0 <= i < |jobs| ==> Works(files, jobs, i))
    && (!r.Ok? ==> exists n :: 0 <= n < |jobs| && StopsAt(files, jobs, n, r))
    && (r.Ok? && !check ==> r.value == Outcome(Applied(files, jobs), 0))
    && (r.Ok? && check ==> r.value.files == files)
    && (r.Ok? && check ==>
          r.value.code == if forall j :: j in jobs ==> StableIn(Rewrite, files, j) then 0 else 1)
  }

  lemma FinishOutcomes(files: Files, jobs: seq<Job>, check: bool)
    ensures Outcomes(files, jobs, check, Finish(files, Sweep(Rewrite, files, jobs), check))
  {
    assert jobs[..|jobs|] == jobs;
    if i :| 0 <= i < |jobs| && !Works(files, jobs, i) {
      var n := FirstFailure(files, jobs, i);
      SweepFails(files, jobs, n);
      assert StopsAt(files, jobs, n, Finish(files, Sweep(Rewrite, files, jobs), check));
    } else {
      SweepWorks(files, jobs, |jobs|);
      SweepPrefix(Rewrite, files, jobs, |jobs|);
      assert forall j :: j in jobs ==> exists i :: 0 <= i < |jobs| && jobs[i] == j;
    }
  }

  datatype Outcome = Outcome(files: Files, code: int)

  /** The exit code and what is then on disk. */
  function Finish(files: Files, swept: Result<Swept>, check: bool): Result<Outcome> {
    match swept
    case Ok(s) => Ok(if check then Outcome(files, if s.stale == [] then 0 else 1) else Outcome(s.files, 0))
    case MissingMarker => MissingMarker
    case MissingNewline => MissingNewline
    case MissingFile => MissingFile
  }

  /** `main`: texts are collected per path and only written, without --check, after every
      block was rewritten. */
  method Generate(files: Files, jobs: seq<Job>, check: bool) returns (r: Result<Outcome>)
    ensures r == Finish(files, Sweep(Rewrite, files, jobs), check)
    ensures Outcomes(files, jobs, check, r)
  {
    r := GenerateWith(Rewrite, files, jobs, check);
    FinishOutcomes(files, jobs, check);
  }

  method GenerateWith(rw: Rewriter, files: Files, jobs: seq<Job>, check: bool) returns (r: Result<Outcome>)
    ensures r == Finish(files, Sweep(rw, files, jobs), check)
  {
    var stale: seq<Job> := [];
    var byPath: Files := map[];
    assert files + byPath == files;
    for i := 0 to |jobs|
      invariant Sweep(rw, files, jobs[..i]) == Ok(Swept(files + byPath, stale))
    {
      var j := jobs[i];
      SweepSnoc(rw, files, jobs, i);
      if j.path !in byPath && j.path !in files {
        SweepStops(rw, files, jobs, i + 1);
        return MissingFile;
      }
      var text := if j.path in byPath then byPath[j.path] else files[j.path];
      var updated := rw(text, j.block);
      if !updated.Ok? {
        SweepStops(rw, files, jobs, i + 1);
        return
          if updated.MissingMarker? then MissingMarker
          else if updated.MissingNewline? then MissingNewline
          else MissingFile;
      }
      OverlayStep(rw, files, byPath, stale, j, text);
      if updated.value != text {
        stale := stale + [j];
      }
      byPath := byPath[j.path := updated.value];
    }
    assert jobs[..|jobs|] == jobs;
    if check {
      return Ok(Outcome(files, if stale == [] then 0 else 1));
    }
    r := Ok(Outcome(files + byPath, 0));
  }

  /** A sweep that fails at some block fails the same way as a whole. */
  lemma {:induction false} SweepStops(rw: Rewriter, files: Files, jobs: seq<Job>, i: nat)
    requires i <= |jobs| && !Sweep(rw, files, jobs[..i]).Ok?
    ensures Sweep(rw, files, jobs) == Sweep(rw, files, jobs[..i])
    decreases |jobs| - i
  {
    if i == |jobs| {
      assert jobs[..i] == jobs;
    } else {
      SweepSnoc(rw, files, jobs, i);
      SweepStops(rw, files, jobs, i + 1);
    }
  }

  // ----- stable blocks -----

  ghost predicate StableIn(rw: Rewriter, files: Files, j: Job) {
    j.path in files && rw(files[j.path], j.block) == Ok(files[j.path])
  }

  /** A block is stable exactly when rewriting it reports nothing. */
  lemma StableStep(rw: Rewriter, s: Swept, j: Job)
    ensures StableIn(rw, s.files, j) ==> Rewritten(rw, s, j) == Ok(s)
    ensures Rewritten(rw, s, j).Ok? && !StableIn(rw, s.files, j) ==> Rewritten(rw, s, j).value.stale == s.stale + [j]
    ensures Rewritten(rw, s, j).Ok? ==> |Rewritten(rw, s, j).value.stale| >= |s.stale|
  {
    if StableIn(rw, s.files, j) {
      assert s.files[j.path := s.files[j.path]] == s.files;
      assert s.stale + [] == s.stale;
    }
  }

  /** As long as every block so far is stable, a sweep changes nothing and reports nothing; at
      the first that is not, it reports it. */
  lemma {:induction false} SweepPrefix(rw: Rewriter, files: Files, jobs: seq<Job>, n: nat)
    requires n <= |jobs|
    ensures (forall i :: 0 <= i < n ==> StableIn(rw, files, jobs[i])) ==>
        Sweep(rw, files, jobs[..n]) == Ok(Swept(files, []))
    ensures !(forall i :: 0 <= i < n ==> StableIn(rw, files, jobs[i])) ==>
              Sweep(rw, files, jobs[..n]).Ok? ==> Sweep(rw, files, jobs[..n]).value.stale != []
  {
    if n > 0 {
      SweepPrefix(rw, files, jobs, n - 1);
      SweepSnoc(rw, files, jobs, n - 1);
      var r := Sweep(rw, files, jobs[..n - 1]);
      if r.Ok? {
        StableStep(rw, r.value, jobs[n - 1]);
      }
    }
  }

  /** --check passes exactly when every block is already stable, and then a write changes
      nothing. */
  lemma CheckPassesIff(rw: Rewriter, files: Files, jobs: seq<Job>)
    ensures Finish(files, Sweep(rw, files, jobs), true) == Ok(Outcome(files, 0))
        <==> forall i :: 0 <= i < |jobs| ==> StableIn(rw, files, jobs[i])
    ensures Finish(files, Sweep(rw, files, jobs), true) == Ok(Outcome(files, 0)) ==>
              Finish(files, Sweep(rw, files, jobs), false) == Ok(Outcome(files, 0))
  {
    SweepPrefix(rw, files, jobs, |jobs|);
    assert jobs[..|jobs|] == jobs;
  }

  // ----- one pass reaches a fixpoint -----

  /** Every block finds its markers in order, blocks of one file with different markers do not
      overlap, and no render holds a marker of its file or a partial line. */
  ghost predicate Laid(files: Files, jobs: seq<Job>) {
    && (forall j :: j in jobs ==> j.path in files && Placed(files[j.path], j.block) && RenderFits(j.block))
    && (forall j, k :: j in jobs && k in jobs && j.path == k.path && !SameMarkers(j.block, k.block) ==>
          Apart(files[j.path], j.block, k.block) && Clean(j.block, k.block))
  }

  /** ... and one pair of markers has one render. */
  ghost predicate WellPlaced(files: Files, jobs: seq<Job>) {
    && Laid(files, jobs)
    && (forall j, k :: j in jobs && k in jobs && j.path == k.path && SameMarkers(j.block, k.block) ==>
      j.block == k.block)
  }

  /** A render of whole lines without any marker text. */
  predicate MarkerFree(render: string) {
    WholeLines(render) && Find(render, BEGIN) == -1 && Find(render, END) == -1
  }

  /** The block of some marker id. */
  ghost predicate IsMade(b: Block) {
    exists marker :: NoNewline(marker) && b == MakeBlock(marker, b.render)
  }

  lemma MadeOk(b: Block)
    requires IsMade(b)
    ensures MarkerOk(b)
  {
    var marker :| NoNewline(marker) && b == MakeBlock(marker, b.render);
  }

  lemma MarkerFreeClean(render: string, b: Block)
    requires IsMade(b) && MarkerFree(render)
    ensures Find(render, b.begin) == -1 && Find(render, b.end) == -1
  {
    var marker :| NoNewline(marker) && b == MakeBlock(marker, b.render);
    NoneLonger(render, BEGIN, ":" + marker);
    NoneLonger(render, END, ":" + marker);
    assert BEGIN + (":" + marker) == b.begin && END + (":" + marker) == b.end;
  }

  /** Blocks made from marker ids, with marker-free renders, are well placed as soon as each
      finds its two markers in order and those of one file lie apart. */
  lemma MadeWellPlaced(files: Files, jobs: seq<Job>)
    requires forall j :: j in jobs ==>
      && IsMade(j.block) && MarkerFree(j.block.render) && j.path in files
      && Locate(files[j.path], j.block).Ok?
      && Locate(files[j.path], j.block).value.endAt >= Locate(files[j.path], j.block).value.lo
    requires forall j, k :: j in jobs && k in jobs && j.path == k.path && j.block != k.block ==>
      MarkerOk(j.block) && MarkerOk(k.block) && Apart(files[j.path], j.block, k.block)
    ensures WellPlaced(files, jobs)
  {
    forall j | j in jobs ensures Placed(files[j.path], j.block) && RenderFits(j.block) {
      MadeOk(j.block);
      MarkerFreeClean(j.block.render, j.block);
    }
    forall j, k | j in jobs && k in jobs && j.path == k.path && !SameMarkers(j.block, k.block)
      ensures Clean(j.block, k.block)
    {
      MarkerFreeClean(j.block.render, k.block);
    }
    forall j, k | j in jobs && k in jobs && j.path == k.path && SameMarkers(j.block, k.block)
      ensures j.block == k.block
    {
      NotApartFromItself(files[j.path], j.block, k.block);
    }
  }

  lemma NotApartFromItself(text: string, a: Block, b: Block)
    requires Placed(text, a) && Placed(text, b) && SameMarkers(a, b)
    ensures !Apart(text, a, b)
  {
    MarkersDecide(text, a, b);
    RegionFacts(text, a);
  }

  /** Rewriting a block keeps every other where it can be found, apart from all others. */
  lemma PlacedKept(text: string, b: Block, k: Block) returns (t: string)
    requires Placed(text, b) && RenderFits(b) && Placed(text, k)
    requires !SameMarkers(b, k) ==> Apart(text, k, b) && Clean(b, k)
    ensures Rewrite(text, b) == Ok(t) && Placed(t, k)
  {
    if SameMarkers(b, k) {
      t := RewriteOver(text, b, k);
    } else {
      t := OthersKept(text, k, b);
    }
  }

  lemma ApartStays(text: string, b: Block, k: Block, l: Block) returns (t: string)
    requires Placed(text, b) && RenderFits(b) && Placed(text, k) && Placed(text, l) && Apart(text, k, l)
    requires !SameMarkers(b, k) ==> Apart(text, k, b) && Clean(b, k)
    requires !SameMarkers(b, l) ==> Apart(text, l, b) && Clean(b, l)
    ensures Rewrite(text, b) == Ok(t) && Placed(t, k) && Placed(t, l) && Apart(t, k, l)
  {
    var k', l' := if SameMarkers(b, k) then b else k, if SameMarkers(b, l) then b else l;
    ApartByMarkers(text, k, l, k', l');
    t := ApartKept(text, k', l', b);
    ApartByMarkers(t, k', l', k, l);
  }

  /** Where blocks stand depends on their markers alone. */
  lemma ApartByMarkers(text: string, k: Block, l: Block, k': Block, l': Block)
    requires SameMarkers(k', k) && SameMarkers(l', l)
    requires Placed(text, k) && Placed(text, l) && Apart(text, k, l)
    ensures Placed(text, k') && Placed(text, l') && Apart(text, k', l')
  {
    assert Locate(text, k) == Locate(text, k') && Locate(text, l) == Locate(text, l');
  }

  /** One step of the sweep keeps the placement. */
  lemma ApplyKeeps(files: Files, jobs: seq<Job>, j: Job)
    requires Laid(files, jobs) && j in jobs
    ensures Rewrite(files[j.path], j.block).Ok? && Laid(Apply(files, j), jobs)
  {
    var text, b := files[j.path], j.block;
    var t := SelfStable(text, b);
    forall k | k in jobs && k.path == j.path ensures Placed(t, k.block) {
      var u := PlacedKept(text, b, k.block);
    }
    forall k, l | k in jobs && l in jobs && k.path == l.path == j.path && !SameMarkers(k.block, l.block)
      ensures Apart(t, k.block, l.block)
    {
      var u := ApartStays(text, b, k.block, l.block);
    }
  }

  /** ... makes its block stable and unsettles none. */
  lemma StepKeeps(files: Files, jobs: seq<Job>, j: Job) returns (t: string)
    requires WellPlaced(files, jobs) && j in jobs
    ensures Rewrite(files[j.path], j.block) == Ok(t)
    ensures WellPlaced(files[j.path := t], jobs) && StableIn(Rewrite, files[j.path := t], j)
    ensures forall k :: k in jobs && StableIn(Rewrite, files, k) ==> StableIn(Rewrite, files[j.path := t], k)
  {
    var text, b := files[j.path], j.block;
    ApplyKeeps(files, jobs, j);
    t := SelfStable(text, b);
    forall k | k in jobs && k.path == j.path && Stable(text, k.block) ensures Stable(t, k.block) {
      if !SameMarkers(k.block, b) { var u := OthersKept(text, k.block, b); }
    }
  }

  /** Rewriting block n of any state with the invariant keeps it, settles the block and
      unsettles none. */
  ghost predicate Settles(rw: Rewriter, inv: Files -> bool, f: Files, jobs: seq<Job>, n: nat)
    requires n < |jobs|
  {
    var j := jobs[n];
    && j.path in f && rw(f[j.path], j.block).Ok?
    && var g := f[j.path := rw(f[j.path], j.block).value];
       inv(g) && StableIn(rw, g, j) && forall k :: k in jobs && StableIn(rw, f, k) ==> StableIn(rw, g, k)
  }

  lemma {:induction false} SweepSettles(rw: Rewriter, inv: Files -> bool, files: Files, jobs: seq<Job>,
                                        n: nat) returns (s: Swept)
    requires inv(files) && n <= |jobs|
    requires forall f, k: nat :: inv(f) && k < |jobs| ==> Settles(rw, inv, f, jobs, k)
    ensures Sweep(rw, files, jobs[..n]) == Ok(s) && inv(s.files)
    ensures forall i :: 0 <= i < n ==> StableIn(rw, s.files, jobs[i])
  {
    if n == 0 {
      s := Swept(files, []);
    } else {
      var s0 := SweepSettles(rw, inv, files, jobs, n - 1);
      SweepSnoc(rw, files, jobs, n - 1);
      assert Settles(rw, inv, s0.files, jobs, n - 1);
      s := Rewritten(rw, s0, jobs[n - 1]).value;
      forall i | 0 <= i < n ensures StableIn(rw, s.files, jobs[i]) {
        assert jobs[i] in jobs;
      }
    }
  }

  /** One pass reaches a fixpoint: after a write, --check passes and another write changes
      nothing. */
  lemma OnePassSettles(files: Files, jobs: seq<Job>)
    requires WellPlaced(files, jobs)
    ensures Finish(files, Sweep(Rewrite, files, jobs), false).Ok?
    ensures var written := Finish(files, Sweep(Rewrite, files, jobs), false).value.files;
            && Finish(written, Sweep(Rewrite, written, jobs), true) == Ok(Outcome(written, 0))
            && Finish(written, Sweep(Rewrite, written, jobs), false) == Ok(Outcome(written, 0))
  {
    var inv: Files -> bool := f => WellPlaced(f, jobs);
    forall f, k: nat | inv(f) && k < |jobs| ensures Settles(Rewrite, inv, f, jobs, k) {
      var t := StepKeeps(f, jobs, jobs[k]);
    }
    var s := SweepSettles(Rewrite, inv, files, jobs, |jobs|);
    assert jobs[..|jobs|] == jobs;
    CheckPassesIff(Rewrite, s.files, jobs);
  }

  // ----- what a sweep leaves alone -----

  lemma AppliedSnoc(files: Files, jobs: seq<Job>, j: Job)
    ensures Applied(files, jobs + [j]) == Apply(Applied(files, jobs), j)
  {
    assert (jobs + [j])[..|jobs|] == jobs;
  }

  lemma {:induction false} AppliedLaid(files: Files, all: seq<Job>, jobs: seq<Job>)
    requires Laid(files, all) && forall j :: j in jobs ==> j in all
    ensures Laid(Applied(files, jobs), all)
  {
    if jobs != [] {
      var l, j := jobs[..|jobs| - 1], jobs[|jobs| - 1];
      assert forall k :: k in l ==> k in jobs;
      AppliedLaid(files, all, l);
      ApplyKeeps(Applied(files, l), all, j);
    }
  }

  /** On well-laid blocks the sweep succeeds and leaves these files. */
  lemma {:induction false} SweepApplies(files: Files, all: seq<Job>, jobs: seq<Job>)
    requires Laid(files, all) && forall j :: j in jobs ==> j in all
    ensures Sweep(Rewrite, files, jobs).Ok? && Sweep(Rewrite, files, jobs).value.files == Applied(files, jobs)
  {
    if jobs != [] {
      var l, j := jobs[..|jobs| - 1], jobs[|jobs| - 1];
      assert forall k :: k in l ==> k in jobs;
      SweepApplies(files, all, l);
      AppliedLaid(files, all, l);
      ApplyKeeps(Applied(files, l), all, j);
    }
  }

  /** A sweep touches only the files that its blocks name. */
  lemma {:induction false} OthersUntouched(rw: Rewriter, files: Files, jobs: seq<Job>)
    requires Sweep(rw, files, jobs).Ok?
    ensures Sweep(rw, files, jobs).value.files.Keys == files.Keys
    ensures forall p :: p in files && (forall j :: j in jobs ==> j.path != p) ==>
              Sweep(rw, files, jobs).value.files[p] == files[p]
  {
    if jobs != [] {
      var l := jobs[..|jobs| - 1];
      OthersUntouched(rw, files, l);
      assert forall j :: j in l ==> j in jobs;
    }
  }

  predicate SamePlace(j: Job, k: Job) {
    j.path == k.path && SameMarkers(j.block, k.block)
  }

  lemma ApplyTwice(files: Files, all: seq<Job>, j: Job, k: Job)
    requires Laid(files, all) && j in all && k in all && SamePlace(j, k)
    ensures Apply(Apply(files, j), k) == Apply(files, k)
  {
    var t := RewriteOver(files[j.path], j.block, k.block);
  }

  lemma AppliesCommute(files: Files, all: seq<Job>, j: Job, k: Job)
    requires Laid(files, all) && j in all && k in all && !SamePlace(j, k)
    ensures Apply(Apply(files, j), k) == Apply(Apply(files, k), j)
  {
    if j.path == k.path {
      CommuteInFile(files, j.path, j.block, k.block);
    }
  }

  lemma CommuteInFile(files: Files, path: string, a: Block, b: Block)
    requires path in files && Placed(files[path], a) && Placed(files[path], b) && Apart(files[path], a, b)
    requires Clean(a, b) && Clean(b, a)
    ensures Apply(Apply(files, Job(path, a)), Job(path, b)) == Apply(Apply(files, Job(path, b)), Job(path, a))
  {
    var text := files[path];
    RewritesCommute(text, a, b);
    var ta := OthersKept(text, b, a);
    var tb := OthersKept(text, a, b);
    ApplyBoth(files, path, a, b, ta);
    ApplyBoth(files, path, b, a, tb);
  }

  lemma ApplyBoth(files: Files, path: string, a: Block, b: Block, t: string)
    requires path in files && Rewrite(files[path], a) == Ok(t) && Rewrite(t, b).Ok?
    ensures Apply(Apply(files, Job(path, a)), Job(path, b)) == files[path := Rewrite(t, b).value]
  {
    assert files[path := t][path := Rewrite(t, b).value] == files[path := Rewrite(t, b).value];
  }

  /** A block can be rewritten last instead of first if no other is in its place. */
  lemma {:induction false} ApplyLast(files: Files, all: seq<Job>, j: Job, jobs: seq<Job>)
    requires Laid(files, all) && j in all && forall k :: k in jobs ==> k in all && !SamePlace(j, k)
    ensures Applied(Apply(files, j), jobs) == Apply(Applied(files, jobs), j)
  {
    if jobs != [] {
      var l, k := jobs[..|jobs| - 1], jobs[|jobs| - 1];
      assert forall m :: m in l ==> m in jobs;
      ApplyLast(files, all, j, l);
      AppliedLaid(files, all, l);
      AppliesCommute(Applied(files, l), all, j, k);
    }
  }

  lemma {:induction false} AppliedConcat(files: Files, a: seq<Job>, b: seq<Job>)
    ensures Applied(files, a + b) == Applied(Applied(files, a), b)
  {
    if b == [] {
      assert a + b == a;
    } else {
      var l, k := b[..|b| - 1], b[|b| - 1];
      assert a + b == (a + l) + [k];
      AppliedSnoc(files, a + l, k);
      AppliedConcat(files, a, l);
    }
  }

  function BlankJob(j: Job): Job {
    j.(block := Blank(j.block))
  }

  function BlankJobs(jobs: seq<Job>): (r: seq<Job>)
    ensures |r| == |jobs| && forall i :: 0 <= i < |r| ==> r[i] == BlankJob(jobs[i])
  {
    seq(|jobs|, i requires 0 <= i < |jobs| => BlankJob(jobs[i]))
  }

  /** j is one of the jobs, or one of them emptied. */
  ghost predicate MaybeBlank(jobs: seq<Job>, j: Job) {
    exists k :: k in jobs && (j == k || j == BlankJob(k))
  }

  lemma BlanksMaybe(jobs: seq<Job>)
    ensures forall j :: j in jobs + BlankJobs(jobs) ==> MaybeBlank(jobs, j)
  {
    forall j | j in jobs + BlankJobs(jobs) ensures MaybeBlank(jobs, j) {
      if j !in jobs {
        var i :| 0 <= i < |jobs| && j == BlankJobs(jobs)[i];
        assert jobs[i] in jobs;
      }
    }
  }

  lemma MaybeOne(files: Files, jobs: seq<Job>, j: Job)
    requires Laid(files, jobs) && MaybeBlank(jobs, j)
    ensures j.path in files && Placed(files[j.path], j.block) && RenderFits(j.block)
  {
    var k :| k in jobs && (j == k || j == BlankJob(k));
    BlankFits(k.block, k.block);
  }

  lemma MaybeTwo(files: Files, jobs: seq<Job>, j: Job, m: Job)
    requires Laid(files, jobs) && MaybeBlank(jobs, j) && MaybeBlank(jobs, m)
    requires j.path == m.path && !SameMarkers(j.block, m.block)
    requires j.path in files && Placed(files[j.path], j.block) && Placed(files[j.path], m.block)
    ensures Apart(files[j.path], j.block, m.block) && Clean(j.block, m.block)
  {
    var k :| k in jobs && (j == k || j == BlankJob(k));
    var l :| l in jobs && (m == l || m == BlankJob(l));
    LaidTwo(files, jobs, k, l);
    ApartSame(files[j.path], k.block, l.block, j.block, m.block);
    CleanSame(k.block, l.block, j.block, m.block);
  }

  lemma LaidTwo(files: Files, jobs: seq<Job>, k: Job, l: Job)
    requires Laid(files, jobs) && k in jobs && l in jobs && k.path == l.path && !SameMarkers(k.block, l.block)
    ensures k.path in files && Placed(files[k.path], k.block) && Placed(files[k.path], l.block)
    ensures Apart(files[k.path], k.block, l.block) && Clean(k.block, l.block)
  {
  }

  lemma ApartSame(text: string, a: Block, b: Block, a': Block, b': Block)
    requires SameMarkers(a, a') && SameMarkers(b, b') && Placed(text, a) && Placed(text, b) && Apart(text, a, b)
    ensures Placed(text, a') && Placed(text, b') && Apart(text, a', b')
  {
    MarkersDecide(text, a, a');
    MarkersDecide(text, b, b');
  }

  lemma CleanSame(a: Block, b: Block, a': Block, b': Block)
    requires Clean(a, b) && MarkerOk(a) && MarkerOk(b)
    requires (a' == a || a' == Blank(a)) && SameMarkers(b, b')
    ensures Clean(a', b')
  {
    BlankFits(a, b);
  }

  lemma BlanksLaid(files: Files, jobs: seq<Job>)
    requires Laid(files, jobs)
    ensures Laid(files, jobs + BlankJobs(jobs))
  {
    var all := jobs + BlankJobs(jobs);
    BlanksMaybe(jobs);
    forall j | j in all ensures j.path in files && Placed(files[j.path], j.block) && RenderFits(j.block) {
      MaybeOne(files, jobs, j);
    }
    forall j, m | j in all && m in all && j.path == m.path && !SameMarkers(j.block, m.block)
      ensures Apart(files[j.path], j.block, m.block) && Clean(j.block, m.block)
    {
      MaybeTwo(files, jobs, j, m);
    }
  }

  /** Emptying all blocks of a text gives the same whether or not one of them was written. */
  lemma BlanksHide(files: Files, all: seq<Job>, blanks: seq<Job>, j: Job)
    requires Laid(files, all) && j in all && BlankJob(j) in blanks
    requires forall k :: k in blanks ==> k in all && k.block.render == ""
    ensures Applied(Apply(files, j), blanks) == Applied(files, blanks)
  {
    var i := FirstInPlace(blanks, j);
    var a, b := blanks[..i], blanks[i + 1..];
    assert blanks == a + [blanks[i]] + b;
    assert forall k :: k in a ==> k in blanks;
    ApplyLast(files, all, j, a);
    AppliedLaid(files, all, a);
    ApplyTwice(Applied(files, a), all, j, blanks[i]);
    AppliedSnoc(files, a, blanks[i]);
    AppliedSnoc(Apply(files, j), a, blanks[i]);
    AppliedConcat(files, a + [blanks[i]], b);
    AppliedConcat(Apply(files, j), a + [blanks[i]], b);
  }

  lemma FirstInPlace(jobs: seq<Job>, j: Job) returns (i: nat)
    requires BlankJob(j) in jobs
    ensures i < |jobs| && SamePlace(j, jobs[i]) && forall k :: k in jobs[..i] ==> !SamePlace(j, k)
  {
    i := 0;
    while i < |jobs| && !SamePlace(j, jobs[i])
      invariant i <= |jobs| && forall m :: 0 <= m < i ==> !SamePlace(j, jobs[m])
    {
      i := i + 1;
    }
    var m :| 0 <= m < |jobs| && jobs[m] == BlankJob(j);
    assert SamePlace(j, jobs[m]);
  }

  lemma {:induction false} AllHidden(files: Files, all: seq<Job>, blanks: seq<Job>, jobs: seq<Job>)
    requires Laid(files, all) && forall j :: j in jobs ==> j in all && BlankJob(j) in blanks
    requires forall k :: k in blanks ==> k in all && k.block.render == ""
    ensures Applied(Applied(files, jobs), blanks) == Applied(files, blanks)
  {
    if jobs != [] {
      var l, j := jobs[..|jobs| - 1], jobs[|jobs| - 1];
      assert forall m :: m in l ==> m in jobs;
      AllHidden(files, all, blanks, l);
      AppliedLaid(files, all, l);
      BlanksHide(Applied(files, l), all, blanks, j);
    }
  }

  /** What a write leaves is what was there outside the marked regions: emptying every block
      gives the same files before and after. */
  lemma OutsideUnchanged(files: Files, jobs: seq<Job>)
    requires WellPlaced(files, jobs)
    ensures Sweep(Rewrite, files, jobs).Ok?
    ensures var written, blanks := Sweep(Rewrite, files, jobs).value.files, BlankJobs(jobs);
            && Sweep(Rewrite, written, blanks).Ok? && Sweep(Rewrite, files, blanks).Ok?
            && Sweep(Rewrite, written, blanks).value.files == Sweep(Rewrite, files, blanks).value.files
  {
    var blanks := BlankJobs(jobs);
    var all := jobs + blanks;
    BlanksLaid(files, jobs);
    forall j | j in jobs ensures BlankJob(j) in blanks {
      var i :| 0 <= i < |jobs| && jobs[i] == j;
      assert blanks[i] == BlankJob(j);
    }
    SweepApplies(files, all, jobs);
    AppliedLaid(files, all, jobs);
    SweepApplies(Applied(files, jobs), all, blanks);
    SweepApplies(files, all, blanks);
    AllHidden(files, all, blanks, jobs);
  }

  // ----- the order of the blocks -----

  lemma {:induction false} AnyOrder(files: Files, all: seq<Job>, a: seq<Job>, b: seq<Job>)
    requires Laid(files, all) && multiset(a) == multiset(b)
    requires forall j :: j in a ==> j in all
    requires forall j, k :: j in a && k in a && SamePlace(j, k) ==> j == k
    ensures Applied(files, a) == Applied(files, b)
    decreases |a|
  {
    if a == [] {
      assert |multiset(b)| == 0;
    } else {
      var l, j := a[..|a| - 1], a[|a| - 1];
      assert a == l + [j] && j in multiset(b);
      var p, q := AroundLast(b, j);
      WithoutOne(l, j, p, q);
      InOrder(l, p + q, a);
      InOrder(a, b, a);
      AnyOrder(files, all, l, p + q);
      MoveLast(files, all, p, j, q);
    }
  }

  lemma WithoutOne(l: seq<Job>, j: Job, p: seq<Job>, q: seq<Job>)
    requires multiset(l + [j]) == multiset(p + [j] + q)
    ensures multiset(l) == multiset(p + q)
  {
    assert multiset(l + [j]) - multiset{j} == multiset(l);
    assert multiset(p + [j] + q) - multiset{j} == multiset(p + q);
  }

  /** What stands before and after the last occurrence. */
  lemma AroundLast(jobs: seq<Job>, j: Job) returns (p: seq<Job>, q: seq<Job>)
    requires j in jobs
    ensures jobs == p + [j] + q && j !in q
  {
    var i := |jobs| - 1;
    while jobs[i] != j
      invariant 0 <= i < |jobs| && j in jobs[..i + 1] && j !in jobs[i + 1..]
      decreases i
    {
      assert jobs[i..] == [jobs[i]] + jobs[i + 1..] && jobs[..i + 1] == jobs[..i] + [jobs[i]];
      i := i - 1;
    }
    p, q := jobs[..i], jobs[i + 1..];
  }

  lemma MoveLast(files: Files, all: seq<Job>, p: seq<Job>, j: Job, q: seq<Job>)
    requires Laid(files, all) && forall k :: k in p + [j] + q ==> k in all
    requires forall k :: k in q ==> !SamePlace(j, k)
    ensures Applied(files, p + [j] + q) == Apply(Applied(files, p + q), j)
  {
    assert forall k :: k in p || k == j || k in q ==> k in p + [j] + q;
    AppliedConcat(files, p + [j], q);
    AppliedSnoc(files, p, j);
    AppliedLaid(files, all, p);
    ApplyLast(Applied(files, p), all, j, q);
    AppliedConcat(files, p, q);
  }

  /** The order of the blocks does not matter. */
  lemma OrderFree(files: Files, jobs: seq<Job>, others: seq<Job>)
    requires WellPlaced(files, jobs) && multiset(jobs) == multiset(others)
    ensures Sweep(Rewrite, files, jobs).Ok? && Sweep(Rewrite, files, others).Ok?
    ensures Sweep(Rewrite, files, jobs).value.files == Sweep(Rewrite, files, others).value.files
  {
    InOrder(jobs, others, jobs);
    SweepApplies(files, jobs, jobs);
    SweepApplies(files, jobs, others);
    AnyOrder(files, jobs, jobs, others);
  }

  lemma InOrder(l: seq<Job>, m: seq<Job>, a: seq<Job>)
    requires multiset(l) == multiset(m) && forall j :: j in l ==> j in a
    ensures forall j :: j in m ==> j in a
  {
    forall j | j in m ensures j in a {
      assert j in multiset(m) && j in multiset(l);
    }
  }
}
