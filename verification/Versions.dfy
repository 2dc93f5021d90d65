/** `VersionOrdering`: reading a version string and comparing two of them. */
module Versions {
  import opened Wrappers
  import opened Ascii
  import opened Folding

  const FINAL_RANK: int := 0
  const INT_MAX: int := 0x7fff_ffff_ffff_ffff

  datatype Key = Key(release: seq<nat>, rank: int, number: nat)

  // ----- comparing keys -----

  function At(release: seq<nat>, i: nat): nat {
    if i < |release| then release[i] else 0
  }

  function Sign(a: int, b: int): int {
    if a < b then -1 else if a == b then 0 else 1
  }

  /** The first difference from position i on, missing fields counting as zero. */
  function CompareFrom(a: seq<nat>, b: seq<nat>, i: nat): int
    decreases (if |a| > |b| then |a| else |b|) - i
  {
    if i >= |a| && i >= |b| then 0
    else if At(a, i) != At(b, i) then Sign(At(a, i), At(b, i))
    else CompareFrom(a, b, i + 1)
  }

  function CompareKeys(left: Key, right: Key): int {
    var r := CompareFrom(left.release, right.release, 0);
    if r != 0 then r
    else if left.rank != right.rank then Sign(left.rank, right.rank)
    else Sign(left.number, right.number)
  }

  /** Position i is the first at which a and b differ. */
  ghost predicate DiffersAt(a: seq<nat>, b: seq<nat>, i: nat) {
    At(a, i) != At(b, i) && forall k :: 0 <= k < i ==> At(a, k) == At(b, k)
  }

  lemma {:induction false} CompareAt(a: seq<nat>, b: seq<nat>, from0: nat, i: nat)
    requires DiffersAt(a, b, i) && from0 <= i
    ensures CompareFrom(a, b, from0) == Sign(At(a, i), At(b, i)) != 0
    decreases i - from0
  {
    if from0 < i { CompareAt(a, b, from0 + 1, i); }
  }

  lemma {:induction false} CompareSame(a: seq<nat>, b: seq<nat>, i: nat)
    requires forall k: nat :: At(a, k) == At(b, k)
    ensures CompareFrom(a, b, i) == 0
    decreases (if |a| > |b| then |a| else |b|) - i
  {
    if i < |a| || i < |b| { CompareSame(a, b, i + 1); }
  }

  /** Two releases either agree up to trailing zeros or differ first at some place. */
  lemma {:induction false} SameOrDiffers(a: seq<nat>, b: seq<nat>, from0: nat) returns (i: nat)
    requires forall k :: 0 <= k < from0 ==> At(a, k) == At(b, k)
    ensures (forall k: nat :: At(a, k) == At(b, k)) || DiffersAt(a, b, i)
    decreases (if |a| > |b| then |a| else |b|) - from0
  {
    if from0 >= |a| && from0 >= |b| {
      i := 0;
    } else if At(a, from0) != At(b, from0) {
      i := from0;
    } else {
      i := SameOrDiffers(a, b, from0 + 1);
    }
  }

  lemma ReleaseSign(a: seq<nat>, b: seq<nat>)
    ensures CompareFrom(a, b, 0) == -CompareFrom(b, a, 0)
    ensures -1 <= CompareFrom(a, b, 0) <= 1
    ensures CompareFrom(a, b, 0) == 0 <==> forall k: nat :: At(a, k) == At(b, k)
  {
    var i := SameOrDiffers(a, b, 0);
    if DiffersAt(a, b, i) {
      CompareAt(a, b, 0, i);
      CompareAt(b, a, 0, i);
    } else {
      CompareSame(a, b, 0);
      CompareSame(b, a, 0);
    }
  }

  lemma ReleaseTransitive(a: seq<nat>, b: seq<nat>, c: seq<nat>)
    requires CompareFrom(a, b, 0) <= 0 && CompareFrom(b, c, 0) <= 0
    ensures CompareFrom(a, c, 0) <= 0
    ensures CompareFrom(a, c, 0) == 0 ==> CompareFrom(a, b, 0) == 0 && CompareFrom(b, c, 0) == 0
  {
    ReleaseSign(a, b);
    ReleaseSign(b, c);
    ReleaseSign(a, c);
    var i := SameOrDiffers(a, b, 0);
    var j := SameOrDiffers(b, c, 0);
    if DiffersAt(a, b, i) { CompareAt(a, b, 0, i); }
    if DiffersAt(b, c, j) { CompareAt(b, c, 0, j); }
    var d := if DiffersAt(a, b, i) && (!DiffersAt(b, c, j) || i < j) then i else j;
    if DiffersAt(a, b, i) || DiffersAt(b, c, j) {
      assert DiffersAt(a, c, d);
      CompareAt(a, c, 0, d);
    }
  }

  /** Comparison is a total preorder: antisymmetric in sign and transitive. */
  lemma CompareOrder(x: Key, y: Key, z: Key)
    ensures CompareKeys(x, y) == -CompareKeys(y, x) && -1 <= CompareKeys(x, y) <= 1
    ensures CompareKeys(x, y) <= 0 && CompareKeys(y, z) <= 0 ==> CompareKeys(x, z) <= 0
  {
    ReleaseSign(x.release, y.release);
    ReleaseSign(y.release, z.release);
    ReleaseSign(x.release, z.release);
    if CompareKeys(x, y) <= 0 && CompareKeys(y, z) <= 0 {
      ReleaseTransitive(x.release, y.release, z.release);
    }
  }

  /** Two versions compare equal exactly when their releases agree up to trailing zeros and
      rank and number are the same. */
  lemma EqualIff(x: Key, y: Key)
    ensures CompareKeys(x, y) == 0 <==>
              (forall k: nat :: At(x.release, k) == At(y.release, k)) && x.rank == y.rank && x.number == y.number
  {
    ReleaseSign(x.release, y.release);
  }

  // ----- reading a version -----

  predicate IsDigit(c: char) { '0' <= c <= '9' }
  predicate IsLetter(c: char) { 'a' <= c <= 'z' || 'A' <= c <= 'Z' }
  predicate IsSep(c: char) { c == '-' || c == '.' || c == '_' }
  predicate IsWhite(c: char) { c == ' ' || ('\t' <= c && c <= '\r') }

  /** The end of the run of digits that starts at i. */
  function DigitsEnd(s: string, i: nat): (e: nat)
    requires i <= |s|
    ensures i <= e <= |s| && (forall k :: i <= k < e ==> IsDigit(s[k])) && (e < |s| ==> !IsDigit(s[e]))
    decreases |s| - i
  {
    if i < |s| && IsDigit(s[i]) then DigitsEnd(s, i + 1) else i
  }

  function Value(digits: string): nat {
    if digits == "" then 0
    else
      var d := digits[|digits| - 1];
      10 * Value(digits[..|digits| - 1]) + if IsDigit(d) then (d - '0') as nat else 0
  }

  /** `Int(text) ?? 0`: what does not fit a 64-bit integer reads as zero. */
  function IntOrZero(digits: string): nat {
    if Value(digits) <= INT_MAX then Value(digits) else 0
  }

  /** The dotted fields from i on, greedily, and where they end. */
  function Fields(s: string, i: nat): (r: (seq<nat>, nat))
    requires i <= |s|
    ensures i <= r.1 <= |s|
    decreases |s| - i
  {
    var e := DigitsEnd(s, i);
    var field := IntOrZero(s[i..e]);
    if e + 1 < |s| && s[e] == '.' && IsDigit(s[e + 1]) then
      var (rest, end) := Fields(s, e + 1);
      ([field] + rest, end)
    else ([field], e)
  }

  /** Labels with their ranks. */
  type Labels = seq<(string, int)>

  /** The alternatives in the order the pattern tries them, with their ranks. */
  const LABELS: Labels :=
    [("preview", -1), ("alpha", -3), ("beta", -2), ("dev", -4), ("pre", -1), ("rc", -1), ("a", -3), ("b", -2),
     ("c", -1)]

  predicate LabelHere(s: string, i: nat, tag: string) {
    && i + |tag| <= |s|
    && (forall k :: 0 <= k < |tag| ==> LowerChar(s[i + k]) == tag[k])
    && (i + |tag| < |s| ==> !IsLetter(s[i + |tag|]))
  }

  function FirstLabel(s: string, i: nat, labels: Labels): (r: Option<(int, nat)>)
    ensures r.Some? ==> r.value.1 <= |s|
  {
    if labels == [] then None
    else if LabelHere(s, i, labels[0].0) then Some((labels[0].1, i + |labels[0].0|))
    else FirstLabel(s, i, labels[1..])
  }

  lemma {:induction false} FirstLabelFound(s: string, i: nat, labels: Labels)
    ensures var r := FirstLabel(s, i, labels);
            && (r.Some? <==> exists k :: 0 <= k < |labels| && LabelHere(s, i, labels[k].0))
            && (r.Some? ==> exists k :: 0 <= k < |labels| && r.value.0 == labels[k].1)
  {
    if labels != [] && !LabelHere(s, i, labels[0].0) {
      FirstLabelFound(s, i, labels[1..]);
      assert forall k :: 0 <= k < |labels| ==> k == 0 || labels[k] == labels[1..][k - 1];
    }
  }

  /** The optional number after a label that ends at end, and after at most one separator. */
  function NumberAt(s: string, end: nat): nat
    requires end <= |s|
  {
    var j := if end < |s| && IsSep(s[end]) then end + 1 else end;
    IntOrZero(s[j..DigitsEnd(s, j)])
  }

  /** The label at i, after an optional separator, as its rank and its end. */
  function LabelAt(s: string, i: nat, labels: Labels): (r: Option<(int, nat)>)
    ensures r.Some? ==> r.value.1 <= |s|
  {
    FirstLabel(s, if i < |s| && IsSep(s[i]) then i + 1 else i, labels)
  }

  /** The prerelease part at i: a label and an optional number. */
  function Prerelease(s: string, i: nat, labels: Labels): (int, nat) {
    match LabelAt(s, i, labels)
    case None => (FINAL_RANK, 0)
    case Some((rank, end)) => (rank, NumberAt(s, end))
  }

  function SkipWhite(s: string, i: nat): (e: nat)
    requires i <= |s|
    ensures i <= e <= |s|
    decreases |s| - i
  {
    if i < |s| && IsWhite(s[i]) then SkipWhite(s, i + 1) else i
  }

  /** Where the release starts, after white space and an optional v. */
  function ReleaseStart(s: string): (e: nat)
    ensures e <= |s|
  {
    var i := SkipWhite(s, 0);
    if i < |s| && (s[i] == 'v' || s[i] == 'V') then i + 1 else i
  }

  /** The key of the version whose release starts at i. */
  function KeyAt(s: string, i: nat, labels: Labels): Key
    requires i <= |s|
  {
    if i < |s| && IsDigit(s[i]) then
      var (release, end) := Fields(s, i);
      var (rank, number) := Prerelease(s, end, labels);
      Key(release, rank, number)
    else Key([0], FINAL_RANK, 0)
  }

  function KeyOf(s: string): Key {
    KeyAt(s, ReleaseStart(s), LABELS)
  }

  function Compare(current: string, latest: string): int {
    CompareKeys(KeyOf(current), KeyOf(latest))
  }

  // ----- prereleases come before, patches after -----

  /** The whole string is a plain release. */
  predicate IsRelease(s: string) {
    var i := ReleaseStart(s);
    i < |s| && IsDigit(s[i]) && Fields(s, i).1 == |s|
  }

  lemma {:induction false} SkipSame(s: string, t: string, i: nat)
    requires i <= |s| && SkipWhite(s, i) < |s|
    ensures SkipWhite(s + t, i) == SkipWhite(s, i)
    decreases |s| - i
  {
    assert i < |s| ==> (s + t)[i] == s[i];
    if i < |s| && IsWhite(s[i]) { SkipSame(s, t, i + 1); }
  }

  lemma StartSame(s: string, t: string)
    requires ReleaseStart(s) < |s|
    ensures ReleaseStart(s + t) == ReleaseStart(s)
  {
    SkipSame(s, t, 0);
    assert forall k :: 0 <= k < |s| ==> (s + t)[k] == s[k];
  }

  lemma {:induction false} DigitsSame(s: string, t: string, i: nat)
    requires i <= |s| && (t == "" || !IsDigit(t[0]))
    ensures DigitsEnd(s + t, i) == DigitsEnd(s, i)
    decreases |s| - i
  {
    if i < |s| {
      assert (s + t)[i] == s[i];
      if IsDigit(s[i]) { DigitsSame(s, t, i + 1); }
    } else if t != "" {
      assert (s + t)[i] == t[0];
    }
  }

  /** The field at i, and whether one follows it, are the same when t is put after s. */
  lemma FieldSame(s: string, t: string, i: nat)
    requires i < |s| && t != "" && !IsDigit(t[0])
    ensures var e := DigitsEnd(s, i);
            && DigitsEnd(s + t, i) == e
            && (s + t)[i..e] == s[i..e]
            && (e + 1 < |s| ==> (s + t)[e] == s[e] && (s + t)[e + 1] == s[e + 1])
  {
    DigitsSame(s, t, i);
    var e := DigitsEnd(s, i);
    assert forall k :: 0 <= k < |s| ==> (s + t)[k] == s[k];
    assert (s + t)[i..e] == s[i..e];
  }

  /** What follows a release without a dot and a digit leaves its fields as they are. */
  lemma {:induction false} FieldsEnd(s: string, t: string, i: nat)
    requires i < |s| && IsDigit(s[i]) && Fields(s, i).1 == |s|
    requires t != "" && !IsDigit(t[0]) && (t[0] == '.' && |t| > 1 ==> !IsDigit(t[1]))
    ensures Fields(s + t, i) == Fields(s, i)
    decreases |s| - i
  {
    FieldSame(s, t, i);
    var e := DigitsEnd(s, i);
    if e < |s| {
      FieldsEnd(s, t, e + 1);
    } else {
      assert (s + t)[e] == t[0] && (|t| > 1 ==> (s + t)[e + 1] == t[1]);
    }
  }

  lemma LastGoesOn(s: string, t: string, i: nat)
    requires i < |s| && DigitsEnd(s, i) == |s|
    requires |t| > 1 && t[0] == '.' && IsDigit(t[1])
    ensures var more := Fields(s + t, |s| + 1);
            Fields(s + t, i) == (Fields(s, i).0 + more.0, more.1)
  {
    FieldSame(s, t, i);
    assert (s + t)[|s|] == t[0] && (s + t)[|s| + 1] == t[1];
  }

  lemma Joined(field: nat, rest: seq<nat>, more: seq<nat>)
    ensures [field] + (rest + more) == [field] + rest + more
  {
  }

  /** A dot and a digit after a release continue its fields. */
  lemma {:induction false} FieldsGoOn(s: string, t: string, i: nat)
    requires i < |s| && IsDigit(s[i]) && Fields(s, i).1 == |s|
    requires |t| > 1 && t[0] == '.' && IsDigit(t[1])
    ensures var more := Fields(s + t, |s| + 1);
            Fields(s + t, i) == (Fields(s, i).0 + more.0, more.1)
    decreases |s| - i
  {
    var e := DigitsEnd(s, i);
    if e == |s| {
      LastGoesOn(s, t, i);
    } else {
      FieldSame(s, t, i);
      FieldsGoOn(s, t, e + 1);
      Joined(IntOrZero(s[i..e]), Fields(s, e + 1).0, Fields(s + t, |s| + 1).0);
    }
  }

  /** A prerelease label stands at the head of t, after at most one separator. */
  predicate Tagged(t: string) {
    var i := if t != "" && IsSep(t[0]) then 1 else 0;
    exists k :: 0 <= k < |LABELS| && LabelHere(t, i, LABELS[k].0)
  }

  lemma LabelShift(s: string, t: string, i: nat, tag: string)
    ensures LabelHere(s + t, |s| + i, tag) <==> LabelHere(t, i, tag)
  {
    assert forall k :: 0 <= k < |t| ==> (s + t)[|s| + k] == t[k];
    forall k | 0 <= k < |tag| && i + |tag| <= |t|
      ensures LowerChar((s + t)[|s| + i + k]) == tag[k] <==> LowerChar(t[i + k]) == tag[k]
    {
      assert (s + t)[|s| + i + k] == t[i + k];
    }
  }

  /** The rank read after a release is below the final one exactly when a label follows. */
  lemma RankIff(s: string, t: string)
    ensures var p := Prerelease(s + t, |s|, LABELS);
            if Tagged(t) then p.0 < FINAL_RANK else p == (FINAL_RANK, 0)
  {
    assert t != "" ==> (s + t)[|s|] == t[0];
    var i := if t != "" && IsSep(t[0]) then 1 else 0;
    LabelsShift(s, t, i);
    FirstLabelFound(s + t, |s| + i, LABELS);
  }

  lemma LabelsShift(s: string, t: string, i: nat)
    ensures forall k :: 0 <= k < |LABELS| ==> (LabelHere(s + t, |s| + i, LABELS[k].0) <==> LabelHere(t, i, LABELS[k].0))
  {
    forall k | 0 <= k < |LABELS|
      ensures LabelHere(s + t, |s| + i, LABELS[k].0) <==> LabelHere(t, i, LABELS[k].0)
    {
      LabelShift(s, t, i, LABELS[k].0);
    }
  }

  /** Text after a release that does not continue its fields makes the version older when
      it is a prerelease label, and changes nothing when it is anything else. */
  lemma PrereleaseBefore(x: string, t: string)
    requires IsRelease(x)
    requires t != "" && !IsDigit(t[0]) && (t[0] == '.' && |t| > 1 ==> !IsDigit(t[1]))
    ensures Compare(x + t, x) == if Tagged(t) then -1 else 0
  {
    FollowedKey(x, t);
    ReleaseKey(x);
    ReleaseSign(KeyOf(x).release, KeyOf(x).release);
  }

  /** A release candidate is older than its release. */
  lemma CandidateBefore(x: string)
    requires IsRelease(x)
    ensures Compare(x + "-rc", x) == -1
  {
    var t := "-rc";
    assert LABELS[5].0 == "rc" && LabelHere(t, 1, LABELS[5].0);
    PrereleaseBefore(x, t);
  }

  lemma FollowedKey(x: string, t: string)
    requires IsRelease(x)
    requires t != "" && !IsDigit(t[0]) && (t[0] == '.' && |t| > 1 ==> !IsDigit(t[1]))
    ensures KeyOf(x + t).release == KeyOf(x).release
    ensures
      if Tagged(t) then KeyOf(x + t).rank < FINAL_RANK
      else KeyOf(x + t).rank == FINAL_RANK && KeyOf(x + t).number == 0
  {
    var i := ReleaseStart(x);
    StartSame(x, t);
    FieldsEnd(x, t, i);
    assert (x + t)[i] == x[i];
    RankIff(x, t);
  }

  lemma {:induction false} AllDigits(s: string, i: nat)
    requires i <= |s| && forall k :: i <= k < |s| ==> IsDigit(s[k])
    ensures DigitsEnd(s, i) == |s|
    decreases |s| - i
  {
    if i < |s| { AllDigits(s, i + 1); }
  }

  lemma LastField(s: string, i: nat)
    requires i < |s| && forall k :: i <= k < |s| ==> IsDigit(s[k])
    ensures Fields(s, i) == ([IntOrZero(s[i..])], |s|)
  {
    AllDigits(s, i);
    assert s[i..|s|] == s[i..];
  }

  /** A dot and then only digits. */
  predicate IsField(t: string) {
    |t| > 1 && t[0] == '.' && forall k :: 1 <= k < |t| ==> IsDigit(t[k])
  }

  lemma OneMoreField(x: string, t: string)
    requires IsRelease(x) && IsField(t)
    ensures IsRelease(x + t) && ReleaseStart(x + t) == ReleaseStart(x)
    ensures var i := ReleaseStart(x); Fields(x + t, i).0 == Fields(x, i).0 + [IntOrZero(t[1..])]
  {
    var i, y := ReleaseStart(x), x + t;
    StartSame(x, t);
    FieldsGoOn(x, t, i);
    assert y[i] == x[i];
    assert y[|x| + 1..] == t[1..];
    assert forall j :: |x| + 1 <= j < |y| ==> y[j] == t[j - |x|];
    LastField(y, |x| + 1);
  }

  lemma ReleaseKey(x: string)
    requires IsRelease(x)
    ensures KeyOf(x) == Key(Fields(x, ReleaseStart(x)).0, FINAL_RANK, 0)
  {
    RankIff(x, "");
    assert x + "" == x;
    assert !Tagged("");
  }

  lemma CompareField(a: Key, n: nat)
    ensures CompareKeys(a, a.(release := a.release + [n])) == if n > 0 then -1 else 0
  {
    var b := a.release + [n];
    assert forall j: nat :: j != |a.release| ==> At(b, j) == At(a.release, j);
    if n > 0 {
      CompareAt(a.release, b, 0, |a.release|);
    } else {
      CompareSame(a.release, b, 0);
    }
  }

  /** One more field makes the version newer exactly when it reads as more than zero; a
      field that does not fit 64 bits reads as zero, so it does not. */
  lemma FieldAfterIff(x: string, t: string)
    requires IsRelease(x) && IsField(t)
    ensures Compare(x, x + t) == if 0 < Value(t[1..]) <= INT_MAX then -1 else 0
  {
    OneMoreField(x, t);
    ReleaseKey(x);
    ReleaseKey(x + t);
    CompareField(KeyOf(x), IntOrZero(t[1..]));
  }

  // ----- prereleases among themselves -----

  lemma {:induction false} FirstLabelShift(s: string, t: string, i: nat, labels: Labels)
    ensures FirstLabel(s + t, |s| + i, labels) ==
              match FirstLabel(t, i, labels) case None => None case Some((rank, end)) => Some((rank, |s| + end))
  {
    if labels != [] {
      LabelShift(s, t, i, labels[0].0);
      FirstLabelShift(s, t, i, labels[1..]);
    }
  }

  lemma {:induction false} DigitsShift(s: string, t: string, i: nat)
    requires i <= |t|
    ensures DigitsEnd(s + t, |s| + i) == |s| + DigitsEnd(t, i)
    decreases |t| - i
  {
    if i < |t| {
      assert (s + t)[|s| + i] == t[i];
      DigitsShift(s, t, i + 1);
    }
  }

  lemma NumberShift(s: string, t: string, end: nat)
    requires end <= |t|
    ensures NumberAt(s + t, |s| + end) == NumberAt(t, end)
  {
    assert end < |t| ==> (s + t)[|s| + end] == t[end];
    var j := if end < |t| && IsSep(t[end]) then end + 1 else end;
    DigitsShift(s, t, j);
    SliceShift(s, t, j, DigitsEnd(t, j));
  }

  lemma SliceShift(s: string, t: string, i: nat, j: nat)
    requires i <= j <= |t|
    ensures (s + t)[|s| + i..|s| + j] == t[i..j]
  {
  }

  lemma LabelAtShift(s: string, t: string, i: nat, labels: Labels)
    requires i <= |t|
    ensures LabelAt(s + t, |s| + i, labels) ==
              match LabelAt(t, i, labels) case None => None case Some((rank, end)) => Some((rank, |s| + end))
  {
    assert i < |t| ==> (s + t)[|s| + i] == t[i];
    FirstLabelShift(s, t, if i < |t| && IsSep(t[i]) then i + 1 else i, labels);
  }

  /** What is read of the text after a release does not depend on the release. */
  lemma PrereleaseShift(s: string, t: string, i: nat, labels: Labels)
    requires i <= |t|
    ensures Prerelease(s + t, |s| + i, labels) == Prerelease(t, i, labels)
  {
    LabelAtShift(s, t, i, labels);
    var found := LabelAt(t, i, labels);
    if found.Some? { NumberShift(s, t, found.value.1); }
  }

  predicate Letters(s: string) {
    forall i :: 0 <= i < |s| ==> IsLetter(s[i]) && LowerChar(s[i]) == s[i]
  }

  predicate Digits(s: string) {
    forall i :: 0 <= i < |s| ==> IsDigit(s[i])
  }

  /** The word is the label, in any case. */
  predicate Spells(word: string, tag: string) {
    |word| == |tag| && forall i :: 0 <= i < |word| ==> LowerChar(word[i]) == tag[i]
  }

  predicate MaybeSep(sep: string) {
    sep == "" || (|sep| == 1 && IsSep(sep[0]))
  }

  /** A label with a number, and what follows that. */
  datatype Tag = Tag(sep: string, word: string, gap: string, number: string, rest: string) {
    /** Separators are optional, the number too, but without it nothing may follow. */
    predicate Ok() {
      && MaybeSep(sep) && MaybeSep(gap) && Digits(number)
      && (rest == "" || (number != "" && !IsDigit(rest[0])))
    }

    function Text(): string {
      sep + word + (gap + number + rest)
    }
  }

  /** Two labels cannot stand in one place. */
  lemma OneLabel(s: string, i: nat, tag: string, other: string)
    requires LabelHere(s, i, tag) && LabelHere(s, i, other) && Letters(tag) && Letters(other)
    ensures tag == other
  {
    if |tag| < |other| {
      NoLongerLabel(s, i, tag, other);
    } else if |other| < |tag| {
      NoLongerLabel(s, i, other, tag);
    } else {
      assert forall k :: 0 <= k < |tag| ==> tag[k] == LowerChar(s[i + k]) == other[k];
    }
  }

  lemma NoLongerLabel(s: string, i: nat, tag: string, other: string)
    requires LabelHere(s, i, tag) && Letters(other) && |tag| < |other|
    ensures !LabelHere(s, i, other)
  {
    if i + |other| <= |s| {
      assert !IsLetter(s[i + |tag|]) && IsLetter(other[|tag|]);
      assert LowerChar(s[i + |tag|]) != other[|tag|];
    }
  }

  ghost predicate Distinct(labels: Labels) {
    && (forall k :: 0 <= k < |labels| ==> Letters(labels[k].0) && labels[k].0 != "")
    && (forall k, m :: 0 <= k < m < |labels| ==> labels[k].0 != labels[m].0)
  }

  /** The labels are distinct words; a folded definition. */
  ghost predicate Words(labels: Labels) {
    forall k :: Opened(labels, k) ==> Distinct(labels)
  }

  lemma WordAt(labels: Labels, k: nat)
    requires Words(labels) && k < |labels|
    ensures Letters(labels[k].0) && labels[k].0 != ""
  {
    assert Opened(labels, 0);
  }

  lemma LabelWords()
    ensures Distinct(LABELS) && Words(LABELS)
  {
  }

  lemma {:induction false} FirstLabelIs(s: string, i: nat, labels: Labels, k: nat)
    requires k < |labels| && LabelHere(s, i, labels[k].0)
    requires forall m :: 0 <= m < k ==> !LabelHere(s, i, labels[m].0)
    ensures FirstLabel(s, i, labels) == Some((labels[k].1, i + |labels[k].0|))
    decreases k
  {
    if k > 0 {
      assert !LabelHere(s, i, labels[0].0);
      FirstLabelIs(s, i, labels[1..], k - 1);
    }
  }

  /** Among distinct words the order in which they are tried does not matter. */
  lemma OnlyLabelIs(s: string, i: nat, labels: Labels, k: nat)
    requires k < |labels| && LabelHere(s, i, labels[k].0) && Words(labels)
    ensures FirstLabel(s, i, labels) == Some((labels[k].1, i + |labels[k].0|))
  {
    assert Opened(labels, 0);
    forall m | 0 <= m < k ensures !LabelHere(s, i, labels[m].0) {
      if LabelHere(s, i, labels[m].0) { OneLabel(s, i, labels[m].0, labels[k].0); }
    }
    FirstLabelIs(s, i, labels, k);
  }

  /** A word in a text that does not go on with a letter. */
  lemma WordHere(s: string, word: string, more: string, tag: string)
    requires Spells(word, tag) && (more == "" || !IsLetter(more[0]))
    ensures LabelHere(s + word + more, |s|, tag)
  {
    var t := s + word + more;
    assert forall j :: 0 <= j < |word| ==> t[|s| + j] == word[j];
    assert more != "" ==> t[|s| + |word|] == more[0];
  }

  lemma WordIsLabel(t: string, s: string, word: string, more: string, labels: Labels, k: nat)
    requires t == s + word + more && (more == "" || !IsLetter(more[0]))
    requires k < |labels| && Spells(word, labels[k].0) && Words(labels)
    ensures FirstLabel(t, |s|, labels) == Some((labels[k].1, |s| + |word|))
  {
    WordHere(s, word, more, labels[k].0);
    OnlyLabelIs(t, |s|, labels, k);
  }

  lemma {:induction false} DigitsUpTo(s: string, i: nat, e: nat)
    requires i <= e <= |s| && (forall k :: i <= k < e ==> IsDigit(s[k])) && (e < |s| ==> !IsDigit(s[e]))
    ensures DigitsEnd(s, i) == e
    decreases e - i
  {
    if i < e { DigitsUpTo(s, i + 1, e); }
  }

  lemma NumberHere(front: string, gap: string, number: string, rest: string)
    requires MaybeSep(gap) && Digits(number) && (rest == "" || (number != "" && !IsDigit(rest[0])))
    ensures NumberAt(front + (gap + number + rest), |front|) == IntOrZero(number)
  {
    var t := front + (gap + number + rest);
    var j, e := |front| + |gap|, |front| + |gap| + |number|;
    assert t == front + gap + number + rest;
    assert gap != "" ==> t[|front|] == gap[0];
    assert forall i :: j <= i < e ==> t[i] == number[i - j];
    assert rest != "" ==> t[e] == rest[0];
    assert number != "" ==> t[j] == number[0];
    DigitsUpTo(t, j, e);
    assert t[j..e] == number;
  }

  /** A label with a number is read as the label's rank and that number, whatever its case and
      its separators and whatever follows. */
  lemma TagRead(t: Tag, labels: Labels, k: nat)
    requires k < |labels| && Words(labels) && Spells(t.word, labels[k].0) && t.Ok()
    ensures Prerelease(t.Text(), 0, labels) == (labels[k].1, IntOrZero(t.number))
  {
    WordAt(labels, k);
    TagStarts(t, labels[k].0);
    WordIsLabel(t.Text(), t.sep, t.word, t.gap + t.number + t.rest, labels, k);
    NumberHere(t.sep + t.word, t.gap, t.number, t.rest);
    LabelRead(t.Text(), |t.sep|, labels, labels[k].1, |t.sep + t.word|);
  }

  lemma LabelRead(s: string, i: nat, labels: Labels, rank: int, end: nat)
    requires s != "" && i == (if IsSep(s[0]) then 1 else 0) && end <= |s|
    requires FirstLabel(s, i, labels) == Some((rank, end))
    ensures Prerelease(s, 0, labels) == (rank, NumberAt(s, end))
  {
  }

  /** Where a label is written, no field of the release goes on. */
  lemma TagStarts(t: Tag, tag: string)
    requires Letters(tag) && tag != "" && Spells(t.word, tag) && t.Ok()
    ensures var s := t.Text(); s != "" && !IsDigit(s[0]) && (s[0] == '.' && |s| > 1 ==> !IsDigit(s[1]))
    ensures var s := t.Text(); if t.sep == "" then IsLetter(s[0]) else s[0] == t.sep[0]
  {
    assert IsLetter(tag[0]) && LowerChar(t.word[0]) == tag[0];
    assert t.Text()[|t.sep|] == t.word[0];
    assert t.sep != "" ==> t.Text()[0] == t.sep[0];
  }

  /** Text after a release that does not continue its fields. */
  lemma TextAfter(x: string, u: string, labels: Labels)
    requires IsRelease(x) && u != "" && !IsDigit(u[0]) && (u[0] == '.' && |u| > 1 ==> !IsDigit(u[1]))
    ensures var p := Prerelease(u, 0, labels);
            KeyAt(x + u, ReleaseStart(x), labels) == Key(Fields(x, ReleaseStart(x)).0, p.0, p.1)
  {
    var i := ReleaseStart(x);
    var f, p := Fields(x, i), Prerelease(u, 0, labels);
    FieldsEnd(x, u, i);
    PrereleaseShift(x, u, 0, labels);
    Prefixed(x, u, i);
    KeyIs(x + u, i, labels, f.0, |x|, p);
  }

  lemma Prefixed(x: string, u: string, i: nat)
    requires i < |x|
    ensures |x + u| > i && (x + u)[i] == x[i]
  {
  }

  lemma KeyIs(y: string, i: nat, labels: Labels, release: seq<nat>, end: nat, p: (int, nat))
    requires i < |y| && IsDigit(y[i]) && Fields(y, i) == (release, end) && Prerelease(y, end, labels) == p
    ensures KeyAt(y, i, labels) == Key(release, p.0, p.1)
  {
  }

  lemma TagKey(x: string, t: Tag, k: nat)
    requires IsRelease(x) && k < |LABELS| && Spells(t.word, LABELS[k].0) && t.Ok()
    ensures KeyOf(x + t.Text()) == Key(KeyOf(x).release, LABELS[k].1, IntOrZero(t.number))
  {
    LabelWords();
    WordAt(LABELS, k);
    TagStarts(t, LABELS[k].0);
    TextAfter(x, t.Text(), LABELS);
    TagRead(t, LABELS, k);
    StartSame(x, t.Text());
    ReleaseKey(x);
  }

  // ----- numbers -----

  /** How a number is written. */
  function Decimal(n: nat): (s: string)
    ensures s != "" && Digits(s)
  {
    (if n < 10 then "" else Decimal(n / 10)) + [('0' as int + n % 10) as char]
  }

  /** Digits are read as the number they write. */
  lemma {:induction false} ValueOfDecimal(n: nat)
    ensures Value(Decimal(n)) == n
  {
    var s := Decimal(n);
    if n < 10 {
      assert s == [('0' as int + n % 10) as char] && s[..0] == "";
    } else {
      ValueOfDecimal(n / 10);
      assert s[..|s| - 1] == Decimal(n / 10);
    }
  }

  /** Zeros before a number change nothing. */
  lemma {:induction false} ZerosChangeNothing(digits: string)
    ensures Value("0" + digits) == Value(digits)
  {
    var s := "0" + digits;
    if digits == "" {
      assert s == "0" && s[..0] == "";
    } else {
      assert s[..|s| - 1] == "0" + digits[..|digits| - 1];
      ZerosChangeNothing(digits[..|digits| - 1]);
    }
  }

  lemma NumberRead(n: nat)
    ensures IntOrZero(Decimal(n)) == if n <= 0x7fff_ffff_ffff_ffff then n else 0
  {
    ValueOfDecimal(n);
  }

  /** How a release is written. */
  function Dotted(ns: seq<nat>): (s: string)
    requires ns != []
    ensures s != "" && IsDigit(s[0])
  {
    var last := Decimal(ns[|ns| - 1]);
    if |ns| == 1 then last else Dotted(ns[..|ns| - 1]) + ("." + last)
  }

  predicate Fit(ns: seq<nat>) {
    forall i :: 0 <= i < |ns| ==> ns[i] <= INT_MAX
  }

  /** s is read as the release ns; a folded definition. */
  ghost predicate ReadAs(s: string, ns: seq<nat>) {
    forall k :: Opened(s, k) ==> IsRelease(s) && KeyOf(s) == Key(ns, FINAL_RANK, 0)
  }

  lemma NumberAlone(n: nat)
    requires n <= INT_MAX
    ensures ReadAs(Decimal(n), [n])
  {
    NumberRead(n);
    LastField(Decimal(n), 0);
    assert Decimal(n)[0..] == Decimal(n);
    ReleaseKey(Decimal(n));
  }

  lemma DottedNext(front: string, ns: seq<nat>, n: nat)
    requires ReadAs(front, ns) && n <= INT_MAX
    ensures ReadAs(front + ("." + Decimal(n)), ns + [n])
  {
    assert Opened(front, 0);
    FieldRead(front, n);
  }

  lemma {:induction false} DottedReads(ns: seq<nat>)
    requires ns != [] && Fit(ns)
    ensures ReadAs(Dotted(ns), ns)
  {
    var n := |ns| - 1;
    if n == 0 {
      NumberAlone(ns[0]);
      assert ns == [ns[0]];
    } else {
      DottedReads(ns[..n]);
      DottedNext(Dotted(ns[..n]), ns[..n], ns[n]);
      assert ns == ns[..n] + [ns[n]];
    }
  }

  /** A release is read as the list of numbers that was written. */
  lemma DottedRead(ns: seq<nat>)
    requires ns != [] && Fit(ns)
    ensures IsRelease(Dotted(ns)) && KeyOf(Dotted(ns)) == Key(ns, FINAL_RANK, 0)
  {
    DottedReads(ns);
    assert Opened(Dotted(ns), 0);
  }

  /** Reading undoes writing: the release, the label's rank and the number. */
  lemma ReadsBack(ns: seq<nat>, t: Tag, k: nat, n: nat)
    requires ns != [] && Fit(ns) && n <= INT_MAX
    requires k < |LABELS| && Spells(t.word, LABELS[k].0) && t.Ok() && t.number == Decimal(n)
    ensures KeyOf(Dotted(ns) + t.Text()) == Key(ns, LABELS[k].1, n)
  {
    DottedRead(ns);
    TagKey(Dotted(ns), t, k);
    NumberRead(n);
  }

  /** Written releases compare by their first difference as numbers, missing ones being zero. */
  lemma ReleaseOrder(a: seq<nat>, b: seq<nat>, i: nat)
    requires a != [] && b != [] && Fit(a) && Fit(b)
    ensures DiffersAt(a, b, i) ==> Compare(Dotted(a), Dotted(b)) == if At(a, i) < At(b, i) then -1 else 1
    ensures (forall k: nat :: At(a, k) == At(b, k)) ==> Compare(Dotted(a), Dotted(b)) == 0
  {
    DottedRead(a);
    DottedRead(b);
    if DiffersAt(a, b, i) { CompareAt(a, b, 0, i); }
    if forall k: nat :: At(a, k) == At(b, k) { CompareSame(a, b, 0); }
  }

  /** Two numbers as last fields of one release compare as numbers. */
  lemma FieldOrder(x: string, m: nat, n: nat)
    requires IsRelease(x) && m <= INT_MAX && n <= INT_MAX
    ensures Compare(x + ("." + Decimal(m)), x + ("." + Decimal(n))) == if m < n then -1 else if m == n then 0 else 1
  {
    FieldRead(x, m);
    FieldRead(x, n);
    var r := KeyOf(x).release;
    var a, b := r + [m], r + [n];
    assert forall j: nat :: j != |r| ==> At(a, j) == At(b, j);
    if m != n { CompareAt(a, b, 0, |r|); } else { CompareSame(a, b, 0); }
  }

  lemma FieldRead(x: string, n: nat)
    requires IsRelease(x) && n <= INT_MAX
    ensures IsRelease(x + ("." + Decimal(n)))
    ensures KeyOf(x + ("." + Decimal(n))) == Key(KeyOf(x).release + [n], FINAL_RANK, 0)
  {
    var t := "." + Decimal(n);
    assert t[1..] == Decimal(n);
    NumberRead(n);
    OneMoreField(x, t);
    ReleaseKey(x);
    ReleaseKey(x + t);
  }

  /** Prereleases of one release are ordered by their labels' ranks, then by their numbers. */
  lemma TagOrder(x: string, s: Tag, j: nat, m: nat, t: Tag, k: nat, n: nat)
    requires IsRelease(x) && m <= INT_MAX && n <= INT_MAX
    requires j < |LABELS| && Spells(s.word, LABELS[j].0) && s.Ok() && s.number == Decimal(m)
    requires k < |LABELS| && Spells(t.word, LABELS[k].0) && t.Ok() && t.number == Decimal(n)
    ensures Compare(x + s.Text(), x + t.Text()) ==
              if LABELS[j].1 < LABELS[k].1 then -1 else if LABELS[j].1 > LABELS[k].1 then 1
              else if m < n then -1 else if m > n then 1 else 0
  {
    TagKey(x, s, j);
    TagKey(x, t, k);
    NumberRead(m);
    NumberRead(n);
    ReleaseSign(KeyOf(x).release, KeyOf(x).release);
  }

  /** The stages of a release. */
  const STAGES: seq<seq<string>> := [["dev"], ["alpha", "a"], ["beta", "b"], ["rc", "c", "pre", "preview"]]

  function Numbered(word: string, n: nat): Tag {
    Tag("-", word, "", Decimal(n), "")
  }

  /** Each stage is older than the later ones, whatever the numbers, and within a stage the
      numbers decide, whichever of its labels is used. */
  lemma StageOrder(x: string, i: nat, v: string, m: nat, j: nat, w: string, n: nat)
    requires IsRelease(x) && m <= INT_MAX && n <= INT_MAX
    requires i <= j < |STAGES| && v in STAGES[i] && w in STAGES[j]
    ensures Compare(x + Numbered(v, m).Text(), x + Numbered(w, n).Text()) ==
              if i < j || m < n then -1 else if m == n then 0 else 1
  {
    var k := StageRank(i, v);
    var l := StageRank(j, w);
    TagOrder(x, Numbered(v, m), k, m, Numbered(w, n), l, n);
  }

  lemma StageRank(i: nat, v: string) returns (k: nat)
    requires i < |STAGES| && v in STAGES[i]
    ensures k < |LABELS| && Spells(v, LABELS[k].0) && LABELS[k].1 == i - 4
  {
    k := match v
      case "preview" => 0
      case "alpha" => 1
      case "beta" => 2
      case "dev" => 3
      case "pre" => 4
      case "rc" => 5
      case "a" => 6
      case "b" => 7
      case _ => 8;
    LabelWords();
  }

  // ----- what may stand before a version -----

  /** The field of u at i + d is that of t at i, and goes on alike. */
  ghost predicate SameField(u: string, t: string, i: nat, d: nat) {
    && i <= |t| && |u| == |t| + d
    && var e := DigitsEnd(t, i);
       && DigitsEnd(u, i + d) == e + d
       && IntOrZero(u[i + d..e + d]) == IntOrZero(t[i..e])
       && (e + 1 < |t| ==> u[e + d] == t[e] && u[e + d + 1] == t[e + 1])
  }

  lemma FieldShift(s: string, t: string, i: nat)
    requires i <= |t|
    ensures SameField(s + t, t, i, |s|)
  {
    var e := DigitsEnd(t, i);
    DigitsShift(s, t, i);
    SliceShift(s, t, i, e);
    assert e < |t| ==> (s + t)[|s| + e] == t[e];
    assert e + 1 < |t| ==> (s + t)[|s| + e + 1] == t[e + 1];
  }

  /** A further field starts at e + 1. */
  predicate GoesOn(t: string, e: nat) {
    e + 1 < |t| && t[e] == '.' && IsDigit(t[e + 1])
  }

  /** The fields of u from i + d on are those of t from i on; a folded definition. */
  ghost predicate SameFields(u: string, t: string, i: nat, d: nat) {
    forall k :: Opened(t, k) ==>
      i <= |t| && i + d <= |u| && Fields(u, i + d) == (Fields(t, i).0, Fields(t, i).1 + d)
  }

  lemma SameFieldsOn(u: string, t: string, i: nat, d: nat)
    requires i <= |t| && SameField(u, t, i, d)
    requires GoesOn(t, DigitsEnd(t, i)) ==> SameFields(u, t, DigitsEnd(t, i) + 1, d)
    ensures SameFields(u, t, i, d)
  {
    if GoesOn(t, DigitsEnd(t, i)) { assert Opened(t, 0); }
  }

  lemma {:induction false} FieldsShift(s: string, t: string, i: nat)
    requires i <= |t|
    ensures SameFields(s + t, t, i, |s|)
    decreases |t| - i
  {
    FieldShift(s, t, i);
    var e := DigitsEnd(t, i);
    if GoesOn(t, e) { FieldsShift(s, t, e + 1); }
    SameFieldsOn(s + t, t, i, |s|);
  }

  lemma {:induction false} SkipShift(w: string, x: string, i: nat)
    requires i <= |w| && forall k :: i <= k < |w| ==> IsWhite(w[k])
    ensures SkipWhite(w + x, i) == |w| + SkipWhite(x, 0)
    decreases |w| - i
  {
    if i < |w| {
      assert (w + x)[i] == w[i];
      SkipShift(w, x, i + 1);
    } else {
      SkipOn(w, x, 0);
    }
  }

  lemma {:induction false} SkipOn(w: string, x: string, i: nat)
    requires i <= |x|
    ensures SkipWhite(w + x, |w| + i) == |w| + SkipWhite(x, i)
    decreases |x| - i
  {
    if i < |x| {
      assert (w + x)[|w| + i] == x[i];
      if IsWhite(x[i]) { SkipOn(w, x, i + 1); }
    }
  }

  /** A version reads the same wherever its release starts. */
  lemma KeyShift(s: string, t: string, i: nat, labels: Labels)
    requires i <= |t|
    ensures KeyAt(s + t, |s| + i, labels) == KeyAt(t, i, labels)
  {
    assert i < |t| ==> (s + t)[|s| + i] == t[i];
    if i < |t| && IsDigit(t[i]) { DigitShift(s, t, i, labels); }
  }

  lemma DigitShift(s: string, t: string, i: nat, labels: Labels)
    requires i < |t| && IsDigit(t[i])
    ensures KeyAt(s + t, |s| + i, labels) == KeyAt(t, i, labels)
  {
    var f := FieldsMoved(s, t, i);
    var p := Prerelease(t, f.1, labels);
    PrereleaseShift(s, t, f.1, labels);
    assert (s + t)[|s| + i] == t[i];
    KeyIs(s + t, |s| + i, labels, f.0, |s| + f.1, p);
    KeyIs(t, i, labels, f.0, f.1, p);
  }

  lemma FieldsMoved(s: string, t: string, i: nat) returns (f: (seq<nat>, nat))
    requires i <= |t|
    ensures Fields(t, i) == f && f.1 <= |t| && Fields(s + t, |s| + i) == (f.0, |s| + f.1)
  {
    f := Fields(t, i);
    FieldsShift(s, t, i);
    assert Opened(t, 0);
  }

  lemma StartShift(w: string, x: string)
    requires forall k :: 0 <= k < |w| ==> IsWhite(w[k])
    ensures ReleaseStart(w + x) == |w| + ReleaseStart(x)
  {
    SkipShift(w, x, 0);
    var i := SkipWhite(x, 0);
    assert i < |x| ==> (w + x)[|w| + i] == x[i];
  }

  /** White space before a version changes nothing. */
  lemma WhiteBefore(w: string, x: string)
    requires forall k :: 0 <= k < |w| ==> IsWhite(w[k])
    ensures KeyOf(w + x) == KeyOf(x)
  {
    StartShift(w, x);
    KeyShift(w, x, ReleaseStart(x), LABELS);
  }

  /** Nor does a v before a digit. */
  lemma LetterBefore(v: char, x: string)
    requires (v == 'v' || v == 'V') && x != "" && IsDigit(x[0])
    ensures KeyOf([v] + x) == KeyOf(x)
  {
    assert ([v] + x)[0] == v && ([v] + x)[1] == x[0];
    assert ReleaseStart([v] + x) == 1 && ReleaseStart(x) == 0;
    KeyShift([v], x, 0, LABELS);
  }

  /** Without a digit there, the text reads like version 0. */
  lemma NoVersion(x: string)
    requires ReleaseStart(x) == |x| || !IsDigit(x[ReleaseStart(x)])
    ensures KeyOf(x) == KeyOf("0")
  {
    NumberAlone(0);
    assert Decimal(0) == "0" && Opened(Decimal(0), 0);
  }

  lemma StartIs(w: string, x: string)
    requires forall k :: 0 <= k < |w| ==> IsWhite(w[k])
    requires x == "" || !IsWhite(x[0])
    ensures ReleaseStart(w + x) == |w| + if x != "" && (x[0] == 'v' || x[0] == 'V') then 1 else 0
  {
    StartShift(w, x);
  }
}
