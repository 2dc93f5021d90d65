/** URL normalisation, the ignore list and the credential rows of `backend_credentials.py`. */
module UrlKeys {
  import opened Ascii

  /** What `str.strip` removes, for ASCII text. */
  predicate IsSpace(c: char) {
    c == ' ' || ('\t' <= c && c <= '\r') || ('\U{1c}' <= c && c <= '\U{1f}')
  }

  function LStrip(s: string): (r: string)
    ensures r == "" || !IsSpace(r[0])
    ensures |r| <= |s|
  {
    if s != "" && IsSpace(s[0]) then LStrip(s[1..]) else s
  }

  function RStrip(s: string): (r: string)
    ensures r == "" || !IsSpace(r[|r| - 1])
    ensures r <= s
  {
    if s != "" && IsSpace(s[|s| - 1]) then RStrip(s[..|s| - 1]) else s
  }

  function RStripSlash(s: string): (r: string)
    ensures r == "" || r[|r| - 1] != '/'
    ensures r <= s
  {
    if s != "" && s[|s| - 1] == '/' then RStripSlash(s[..|s| - 1]) else s
  }

  predicate EndsWithV1(s: string) {
    |s| >= 3 && s[|s| - 3..] == "/v1"
  }

  predicate HasPrefix(s: string, prefix: string) {
    |s| >= |prefix| && forall i :: 0 <= i < |prefix| ==> LowerChar(s[i]) == prefix[i]
  }

  /** `urlparse` finds the scheme http or https and a host part. */
  predicate IsHttpUrl(s: string) {
    (HasPrefix(s, "http://") && |s| > 7 && s[7] !in {'/', '?', '#'})
    || (HasPrefix(s, "https://") && |s| > 8 && s[8] !in {'/', '?', '#'})
  }

  /** `url.strip().rstrip("/")`. */
  function Core(url: string): string {
    RStripSlash(RStrip(LStrip(url)))
  }

  /** `normalize_backend_url`. */
  function Normalize(url: string): string {
    var raw := Core(url);
    if raw == "" || EndsWithV1(raw) || !IsHttpUrl(raw) then raw else raw + "/v1"
  }

  /** A URL that is not http(s) and has white space right before its trailing slashes. */
  predicate Loose(url: string) {
    var raw := Core(url);
    raw != "" && !EndsWithV1(raw) && !IsHttpUrl(raw) && IsSpace(raw[|raw| - 1])
  }

  const WHITE: string := " \t\n\U{0b}\U{0c}\r\U{1c}\U{1d}\U{1e}\U{1f}"

  lemma SpaceIs(c: char)
    ensures IsSpace(c) <==> c in WHITE
  {
    if IsSpace(c) {
      var i := if c == ' ' then 0 else if c <= '\r' then c as int - 8 else c as int - 22;
      assert WHITE[i] == c;
    }
  }

  predicate AllSpace(s: string) {
    forall i :: 0 <= i < |s| ==> s[i] in WHITE
  }

  lemma {:induction false} LStripIs(s: string) returns (left: string)
    ensures s == left + LStrip(s) && AllSpace(left)
  {
    if s != "" && IsSpace(s[0]) {
      SpaceIs(s[0]);
      var rest := LStripIs(s[1..]);
      left := [s[0]] + rest;
      assert s == [s[0]] + s[1..];
    } else {
      left := "";
    }
  }

  lemma {:induction false} RStripIs(s: string) returns (right: string)
    ensures s == RStrip(s) + right && AllSpace(right)
  {
    if s != "" && IsSpace(s[|s| - 1]) {
      SpaceIs(s[|s| - 1]);
      var rest := RStripIs(s[..|s| - 1]);
      right := rest + [s[|s| - 1]];
      assert s == s[..|s| - 1] + [s[|s| - 1]];
    } else {
      right := "";
    }
  }

  lemma {:induction false} SlashesAre(s: string) returns (slashes: string)
    ensures s == RStripSlash(s) + slashes && forall i :: 0 <= i < |slashes| ==> slashes[i] == '/'
  {
    if s != "" && s[|s| - 1] == '/' {
      var rest := SlashesAre(s[..|s| - 1]);
      slashes := rest + ['/'];
      assert s == s[..|s| - 1] + [s[|s| - 1]];
    } else {
      slashes := "";
    }
  }

  /** Only white space around the URL, and the slashes before it at the end, are cut off, and
      all of those. */
  lemma CoreIs(url: string) returns (left: string, slashes: string, right: string)
    ensures url == left + Core(url) + slashes + right
    ensures AllSpace(left) && AllSpace(right) && forall i :: 0 <= i < |slashes| ==> slashes[i] == '/'
    ensures var raw := Core(url);
            && (raw != "" ==> raw[0] !in WHITE && raw[|raw| - 1] != '/')
            && (raw + slashes != "" ==> (raw + slashes)[|raw + slashes| - 1] !in WHITE)
  {
    left := LStripIs(url);
    right := RStripIs(LStrip(url));
    slashes := SlashesAre(RStrip(LStrip(url)));
    CoreShape(url);
    if Core(url) != "" { SpaceIs(Core(url)[0]); }
    EndsSolid(RStrip(LStrip(url)));
    Joined(left, Core(url), slashes, right);
  }

  lemma EndsSolid(s: string)
    requires s == "" || !IsSpace(s[|s| - 1])
    ensures s == "" || s[|s| - 1] !in WHITE
  {
    if s != "" { SpaceIs(s[|s| - 1]); }
  }

  lemma Joined(a: string, b: string, c: string, d: string)
    ensures a + (b + c + d) == a + b + c + d
  {
  }

  function Lower(s: string): string {
    seq(|s|, i requires 0 <= i < |s| => LowerChar(s[i]))
  }

  /** An http or https scheme and something that can begin a host. */
  ghost predicate HasHost(s: string, scheme: string, rest: string) {
    && s == scheme + "://" + rest
    && (Lower(scheme) == "http" || Lower(scheme) == "https")
    && rest != "" && rest[0] != '/' && rest[0] != '?' && rest[0] != '#'
  }

  lemma PrefixIs(s: string, scheme: string)
    requires scheme == "http" || scheme == "https"
    ensures HasPrefix(s, scheme + "://") <==>
              |s| >= |scheme| + 3 && Lower(s[..|scheme|]) == scheme && s[|scheme|..|scheme| + 3] == "://"
  {
    var n, prefix := |scheme|, scheme + "://";
    assert forall i :: 0 <= i < n ==> prefix[i] == scheme[i];
    assert prefix[n] == ':' && prefix[n + 1] == '/' && prefix[n + 2] == '/';
    if |s| >= n + 3 {
      assert forall i :: 0 <= i < n ==> Lower(s[..n])[i] == LowerChar(s[i]);
      assert s[n..n + 3] == [s[n], s[n + 1], s[n + 2]];
      if HasPrefix(s, prefix) {
        assert forall i :: 0 <= i < n + 3 ==> LowerChar(s[i]) == prefix[i];
        assert Lower(s[..n]) == scheme;
      }
    }
  }

  lemma HostAt(s: string, n: nat)
    requires |s| > n + 3 && s[n..n + 3] == "://" && (Lower(s[..n]) == "http" || Lower(s[..n]) == "https")
    requires s[n + 3] !in {'/', '?', '#'}
    ensures HasHost(s, s[..n], s[n + 3..])
  {
    assert s == s[..n] + s[n..n + 3] + s[n + 3..];
  }

  lemma HostThere(s: string, scheme: string, rest: string)
    requires HasHost(s, scheme, rest)
    ensures IsHttpUrl(s)
  {
    var n := |scheme|;
    assert |Lower(scheme)| == n;
    assert s[..n] == scheme && s[n..n + 3] == "://" && s[n + 3] == rest[0];
    PrefixIs(s, Lower(scheme));
  }

  lemma HttpUrlIff(s: string)
    ensures IsHttpUrl(s) <==> exists scheme, rest :: HasHost(s, scheme, rest)
  {
    if IsHttpUrl(s) {
      PrefixIs(s, "http");
      PrefixIs(s, "https");
      HostAt(s, if HasPrefix(s, "http://") && |s| > 7 && s[7] !in {'/', '?', '#'} then 4 else 5);
    }
    if scheme, rest :| HasHost(s, scheme, rest) { HostThere(s, scheme, rest); }
  }

  /** The path /v1 is appended to exactly the http and https URLs that do not end in it. */
  lemma VersionAddedIff(url: string)
    ensures Normalize(url) ==
              if (exists scheme, rest :: HasHost(Core(url), scheme, rest)) && !exists s :: Core(url) == s + "/v1"
              then Core(url) + "/v1" else Core(url)
  {
    var raw := Core(url);
    HttpUrlIff(raw);
    if EndsWithV1(raw) {
      assert raw == raw[..|raw| - 3] + "/v1";
    }
    if s :| raw == s + "/v1" {
      assert raw[|raw| - 3..] == "/v1";
    }
    if scheme, rest :| HasHost(raw, scheme, rest) {
      assert raw != "";
    }
  }

  lemma CoreShape(url: string)
    ensures Core(url) == "" || (!IsSpace(Core(url)[0]) && Core(url)[|Core(url)| - 1] != '/')
  {
  }

  /** Text without white space or slashes at its ends is its own core. */
  lemma CoreOfTight(s: string)
    requires s == "" || (!IsSpace(s[0]) && !IsSpace(s[|s| - 1]) && s[|s| - 1] != '/')
    ensures Core(s) == s
  {
  }

  lemma EndsTight(s: string)
    requires EndsWithV1(s)
    ensures s[|s| - 1] == '1'
  {
    assert s[|s| - 3..][2] == '1';
  }

  /** Normalising twice is normalising once, exactly for URLs that are not loose. */
  lemma NormalizeIdempotentIff(url: string)
    ensures Normalize(Normalize(url)) == Normalize(url) <==> !Loose(url)
  {
    var raw, n := Core(url), Normalize(url);
    CoreShape(url);
    if raw == "" {
      CoreOfTight("");
    } else if EndsWithV1(raw) || IsHttpUrl(raw) {
      assert n == raw || n[|n| - 3..] == "/v1";
      EndsTight(n);
      CoreOfTight(n);
    } else if IsSpace(raw[|raw| - 1]) {
      LooseChanges(raw);
    } else {
      CoreOfTight(raw);
    }
  }

  lemma LooseChanges(raw: string)
    requires raw != "" && IsSpace(raw[|raw| - 1])
    ensures Normalize(raw) != raw
  {
    var c := Core(raw);
    assert |c| < |raw|;
    if Normalize(raw) != c {
      assert Normalize(raw)[|c + "/v1"| - 1] == '1';
    }
  }
}

module IgnoreList {
  import opened UrlKeys

  /** A routing.backends row, as far as credentials go. */
  datatype Row = Row(baseUrl: string, provider: string, apiKey: string, apiKeyEnv: string, enabled: bool, local: bool)

  /** `configured_backend_urls`: disabled rows count. */
  function ConfiguredUrls(rows: seq<Row>): set<string> {
    set r | r in rows && Normalize(r.baseUrl) != "" :: Normalize(r.baseUrl)
  }

  /** The normalised, nonempty entries of the list. */
  function Entries(ignored: seq<string>): set<string> {
    set u | u in ignored && Normalize(u) != "" :: Normalize(u)
  }

  /** `ignored_url_keys`: the entries that take effect. */
  function IgnoredKeys(ignored: seq<string>, rows: seq<Row>): set<string> {
    set n | n in Entries(ignored) && n !in ConfiguredUrls(rows)
  }

  predicate IsIgnored(ignored: seq<string>, rows: seq<Row>, url: string) {
    Normalize(url) != "" && Normalize(url) in IgnoredKeys(ignored, rows)
  }

  /** What it means to be ignored: some entry has the URL's normalised form, and no row has, even
      a disabled one. */
  lemma IsIgnoredIff(ignored: seq<string>, rows: seq<Row>, url: string)
    ensures IsIgnored(ignored, rows, url) <==>
              && Normalize(url) != ""
              && (exists u :: u in ignored && Normalize(u) == Normalize(url))
              && (forall r :: r in rows ==> Normalize(r.baseUrl) != Normalize(url))
  {
  }

  /** Some entry has the given normalised form. */
  predicate Listed(ignored: seq<string>, norm: string) {
    exists u :: u in ignored && Normalize(u) == norm
  }

  /** `add_ignored_url` on the list. */
  function Added(ignored: seq<string>, url: string): seq<string> {
    var norm := Normalize(url);
    if norm == "" || Listed(ignored, norm) then ignored else ignored + [norm]
  }

  function Without(ignored: seq<string>, norm: string): seq<string> {
    if ignored == [] then []
    else (if Normalize(ignored[0]) != norm then [ignored[0]] else []) + Without(ignored[1..], norm)
  }

  /** `remove_ignored_url` on the list. */
  function Removed(ignored: seq<string>, url: string): seq<string> {
    if Normalize(url) == "" then ignored else Without(ignored, Normalize(url))
  }

  lemma {:induction false} WithoutMembers(ignored: seq<string>, norm: string)
    ensures forall u :: u in Without(ignored, norm) <==> u in ignored && Normalize(u) != norm
    ensures |Without(ignored, norm)| <= |ignored|
    ensures |Without(ignored, norm)| == |ignored| ==> Without(ignored, norm) == ignored
  {
    if ignored != [] {
      WithoutMembers(ignored[1..], norm);
      assert ignored == [ignored[0]] + ignored[1..];
    }
  }

  lemma {:induction false} WithoutLast(ignored: seq<string>, last: string)
    requires !Listed(ignored, Normalize(last))
    ensures Without(ignored + [last], Normalize(last)) == ignored
  {
    if ignored == [] {
      assert ignored + [last] == [last] + [];
      WithoutCons(last, [], Normalize(last));
    } else {
      var u, rest := ignored[0], ignored[1..];
      assert u in ignored && forall x :: x in rest ==> x in ignored;
      WithoutLast(rest, last);
      FrontFirst(ignored, last);
      WithoutCons(u, rest + [last], Normalize(last));
    }
  }

  lemma FrontFirst<T>(s: seq<T>, x: T)
    requires s != []
    ensures s == [s[0]] + s[1..] && s + [x] == [s[0]] + (s[1..] + [x])
  {
  }

  lemma WithoutCons(u: string, rest: seq<string>, norm: string)
    ensures Without([u] + rest, norm) == (if Normalize(u) != norm then [u] else []) + Without(rest, norm)
  {
    assert ([u] + rest)[1..] == rest;
  }

  /** A URL that names nothing changes nothing; otherwise exactly the entries with its normalised
      form go. */
  lemma RemovedMembers(ignored: seq<string>, url: string)
    ensures Normalize(url) == "" ==> Removed(ignored, url) == ignored && Added(ignored, url) == ignored
    ensures Normalize(url) != "" ==>
              forall u :: u in Removed(ignored, url) <==> u in ignored && Normalize(u) != Normalize(url)
  {
    WithoutMembers(ignored, Normalize(url));
  }

  // ----- what a history of edits amounts to -----

  datatype Edit = Add(url: string) | Remove(url: string)

  function Apply(ignored: seq<string>, e: Edit): seq<string> {
    match e
    case Add(url) => Added(ignored, url)
    case Remove(url) => Removed(ignored, url)
  }

  function ApplyAll(ignored: seq<string>, es: seq<Edit>): seq<string> {
    if es == [] then ignored else Apply(ApplyAll(ignored, es[..|es| - 1]), es[|es| - 1])
  }

  /** The reference: a set of keys, edited by key. */
  function EditKeys(keys: set<string>, e: Edit): set<string> {
    match e
    case Add(url) => keys + if Normalize(url) == "" then {} else {Normalize(url)}
    case Remove(url) => keys - {Normalize(url)}
  }

  function KeysAfter(keys: set<string>, es: seq<Edit>): set<string> {
    if es == [] then keys else EditKeys(KeysAfter(keys, es[..|es| - 1]), es[|es| - 1])
  }

  lemma EntriesAppend(ignored: seq<string>, u: string)
    ensures Entries(ignored + [u]) == Entries(ignored) + if Normalize(u) == "" then {} else {Normalize(u)}
  {
    assert forall x :: x in ignored + [u] <==> x in ignored || x == u;
  }

  lemma AddedEntries(ignored: seq<string>, url: string)
    requires !Loose(url)
    ensures Entries(Added(ignored, url)) == Entries(ignored) + if Normalize(url) == "" then {} else {Normalize(url)}
  {
    NormalizeIdempotentIff(url);
    var norm := Normalize(url);
    if norm != "" {
      if Listed(ignored, norm) {
        assert norm in Entries(ignored);
      } else {
        EntriesAppend(ignored, norm);
      }
    }
  }

  lemma RemovedEntries(ignored: seq<string>, url: string)
    ensures Entries(Removed(ignored, url)) == Entries(ignored) - {Normalize(url)}
  {
    WithoutMembers(ignored, Normalize(url));
  }

  /** A removal, or an add whose URL is not loose or is there already. */
  predicate Follows(ignored: seq<string>, e: Edit) {
    e.Add? ==> !Loose(e.url) || Normalize(e.url) in Entries(ignored)
  }

  /** The list follows one edit by key exactly when it is such a one. */
  lemma EditTrackedIff(ignored: seq<string>, e: Edit)
    ensures Entries(Apply(ignored, e)) == EditKeys(Entries(ignored), e) <==> Follows(ignored, e)
  {
    if e.Remove? {
      RemovedEntries(ignored, e.url);
    } else if !Loose(e.url) {
      AddedEntries(ignored, e.url);
    } else {
      LooseUnlisted(ignored, e.url);
    }
  }

  /** Adding a loose URL does not list it. */
  lemma LooseUnlisted(ignored: seq<string>, url: string)
    requires Loose(url)
    ensures Normalize(url) != ""
    ensures Normalize(url) in Entries(Added(ignored, url)) <==> Normalize(url) in Entries(ignored)
    ensures Normalize(url) in Entries(ignored) ==> Added(ignored, url) == ignored
  {
    NormalizeIdempotentIff(url);
    var norm := Normalize(url);
    if norm !in Entries(ignored) {
      assert !Listed(ignored, norm);
      EntriesAppend(ignored, norm);
    }
  }

  /** After the first k edits the list stands for exactly the keys that a set edited by key
      would hold. */
  ghost predicate TrackedAt(ignored: seq<string>, es: seq<Edit>, k: nat)
    requires k <= |es|
  {
    Entries(ApplyAll(ignored, es[..k])) == KeysAfter(Entries(ignored), es[..k])
  }

  ghost predicate FollowsAt(ignored: seq<string>, es: seq<Edit>, k: nat)
    requires k < |es|
  {
    Follows(ApplyAll(ignored, es[..k]), es[k])
  }

  lemma TrackedNext(ignored: seq<string>, es: seq<Edit>, k: nat)
    requires k < |es| && TrackedAt(ignored, es, k)
    ensures TrackedAt(ignored, es, k + 1) <==> FollowsAt(ignored, es, k)
  {
    assert es[..k + 1][..k] == es[..k];
    EditTrackedIff(ApplyAll(ignored, es[..k]), es[k]);
  }

  lemma {:induction false} TrackedUpTo(ignored: seq<string>, es: seq<Edit>, k: nat)
    requires k <= |es| && forall i :: 0 <= i < k ==> FollowsAt(ignored, es, i)
    ensures TrackedAt(ignored, es, k)
  {
    if k > 0 {
      TrackedUpTo(ignored, es, k - 1);
      TrackedNext(ignored, es, k - 1);
    }
  }

  /** Over any run of edits the list stands for the keys throughout exactly when every add is
      of a URL that is not loose or is there at that time. */
  lemma EditsTrackedIff(ignored: seq<string>, es: seq<Edit>)
    ensures (forall k :: 0 <= k <= |es| ==> TrackedAt(ignored, es, k))
       <==> forall k :: 0 <= k < |es| ==> FollowsAt(ignored, es, k)
  {
    if forall k :: 0 <= k < |es| ==> FollowsAt(ignored, es, k) {
      forall k | 0 <= k <= |es| ensures TrackedAt(ignored, es, k) { TrackedUpTo(ignored, es, k); }
    } else {
      var k :| 0 <= k < |es| && !FollowsAt(ignored, es, k);
      if TrackedAt(ignored, es, k) { TrackedNext(ignored, es, k); }
    }
  }

  /** In particular after any edits with URLs that are not loose. */
  lemma EditsTracked(ignored: seq<string>, es: seq<Edit>)
    requires forall i :: 0 <= i < |es| && es[i].Add? ==> !Loose(es[i].url)
    ensures Entries(ApplyAll(ignored, es)) == KeysAfter(Entries(ignored), es)
  {
    TrackedUpTo(ignored, es, |es|);
    assert es[..|es|] == es;
  }

  /** A URL just added is ignored exactly when it names something, no backend row pins it, and
      it is not loose or was there before. */
  lemma AddedIsIgnoredIff(ignored: seq<string>, rows: seq<Row>, url: string)
    ensures IsIgnored(Added(ignored, url), rows, url) <==>
              Normalize(url) != "" && Normalize(url) !in ConfiguredUrls(rows)
              && (!Loose(url) || Normalize(url) in Entries(ignored))
  {
    NormalizeIdempotentIff(url);
    var norm := Normalize(url);
    if !Loose(url) {
      AddedEntries(ignored, url);
    } else {
      LooseUnlisted(ignored, url);
    }
  }

  lemma {:induction false} WithoutAbsent(ignored: seq<string>, norm: string)
    requires !Listed(ignored, norm)
    ensures Without(ignored, norm) == ignored
  {
    if ignored != [] {
      assert ignored[0] in ignored && forall u :: u in ignored[1..] ==> u in ignored;
      WithoutAbsent(ignored[1..], norm);
    }
  }

  /** Removing what was just added restores the list exactly when the URL is not loose. */
  lemma AddThenRemoveIff(ignored: seq<string>, url: string)
    requires Added(ignored, url) != ignored
    ensures Removed(Added(ignored, url), url) == ignored <==> !Loose(url)
  {
    NormalizeIdempotentIff(url);
    var norm := Normalize(url);
    if Loose(url) {
      assert forall u :: u in ignored + [norm] ==> u in ignored || u == norm;
      WithoutAbsent(ignored + [norm], norm);
    } else {
      WithoutLast(ignored, norm);
    }
  }

  /** `ignored_url_conflicts`, as a fold: each overruled entry once, in order. */
  function Conflicts(ignored: seq<string>, rows: seq<Row>): seq<string> {
    if ignored == [] then []
    else
      var before := Conflicts(ignored[..|ignored| - 1], rows);
      var norm := Normalize(ignored[|ignored| - 1]);
      if norm != "" && norm in ConfiguredUrls(rows) && norm !in before then before + [norm] else before
  }

  lemma ConflictsNext(ignored: seq<string>, rows: seq<Row>, i: nat)
    requires i < |ignored|
    ensures var before, norm := Conflicts(ignored[..i], rows), Normalize(ignored[i]);
            Conflicts(ignored[..i + 1], rows) ==
              if norm != "" && norm in ConfiguredUrls(rows) && norm !in before then before + [norm] else before
  {
    assert ignored[..i + 1][..i] == ignored[..i];
  }

  lemma {:induction false} ConflictMembers(ignored: seq<string>, rows: seq<Row>)
    ensures forall n :: n in Conflicts(ignored, rows) <==> n in Entries(ignored) && n in ConfiguredUrls(rows)
  {
    if ignored != [] {
      var l, u := ignored[..|ignored| - 1], ignored[|ignored| - 1];
      ConflictMembers(l, rows);
      assert forall x :: x in ignored <==> x in l || x == u;
    }
  }

  ghost predicate Distinct(xs: seq<string>) {
    forall i, j :: 0 <= i < j < |xs| ==> xs[i] != xs[j]
  }

  lemma DistinctSnoc(xs: seq<string>, x: string)
    requires Distinct(xs) && x !in xs
    ensures Distinct(xs + [x])
  {
    assert forall i :: 0 <= i < |xs| ==> xs[i] in xs;
  }

  /** Each conflict is reported once. */
  lemma {:induction false} ConflictsOnce(ignored: seq<string>, rows: seq<Row>)
    ensures Distinct(Conflicts(ignored, rows))
  {
    if ignored != [] {
      var n := |ignored| - 1;
      ConflictsOnce(ignored[..n], rows);
      ConflictsNext(ignored, rows, n);
      assert ignored[..n + 1] == ignored;
      var before, norm := Conflicts(ignored[..n], rows), Normalize(ignored[n]);
      if norm !in before { DistinctSnoc(before, norm); }
    }
  }

  /** Effective keys and conflicts partition the entries. */
  lemma KeysPartition(ignored: seq<string>, rows: seq<Row>)
    ensures IgnoredKeys(ignored, rows) + (set n | n in Conflicts(ignored, rows)) == Entries(ignored)
    ensures IgnoredKeys(ignored, rows) !! (set n | n in Conflicts(ignored, rows))
  {
    ConflictMembers(ignored, rows);
  }

  // ----- credential rows -----

  /** The index of the enabled row that `backend_override_for_url` returns, or -1. */
  function OverrideIndex(rows: seq<Row>, url: string): (i: int)
    ensures -1 <= i < |rows|
  {
    if Normalize(url) == "" then -1 else FirstMatch(rows, Normalize(url))
  }

  function FirstMatch(rows: seq<Row>, norm: string): (i: int)
    ensures -1 <= i < |rows|
    ensures i >= 0 ==> Matches(rows[i], norm)
    ensures forall k :: 0 <= k < (if i == -1 then |rows| else i) ==> !Matches(rows[k], norm)
  {
    if rows == [] then -1
    else if Matches(rows[0], norm) then 0
    else
      var i := FirstMatch(rows[1..], norm);
      if i == -1 then -1 else i + 1
  }

  predicate Matches(r: Row, norm: string) {
    r.enabled && r.baseUrl != "" && Normalize(r.baseUrl) == norm
  }

  /** A given key replaces the stored one and its environment variable, and conversely; with
      neither, the stored credential stays. */
  function WithCredential(r: Row, provider: string, apiKey: string, apiKeyEnv: string): Row {
    var r1 := if apiKey != "" then r.(apiKey := apiKey, apiKeyEnv := "")
              else if apiKeyEnv != "" then r.(apiKeyEnv := apiKeyEnv, apiKey := "")
              else r;
    r1.(provider := provider, enabled := true, local := true)
  }

  /** `upsert_backend_credential` on the rows. */
  function Upserted(rows: seq<Row>, url: string, provider: string, apiKey: string, apiKeyEnv: string): seq<Row> {
    var norm := Normalize(url);
    var i := OverrideIndex(rows, norm);
    if i >= 0 then rows[i := WithCredential(rows[i], provider, apiKey, apiKeyEnv)]
    else rows + [Row(norm, provider, apiKey, apiKeyEnv, true, true)]
  }

  lemma FirstMatchIs(rows: seq<Row>, norm: string, i: nat)
    requires i < |rows| && Matches(rows[i], norm) && forall k :: 0 <= k < i ==> !Matches(rows[k], norm)
    ensures FirstMatch(rows, norm) == i
  {
  }

  /** An upsert of a URL that resolves to no row adds one after the others. The URL resolves to
      it exactly when it names something and is not loose; the same upsert again adds no further
      row exactly when the stored form still names something. */
  lemma UpsertFoundIff(rows: seq<Row>, url: string, provider: string, apiKey: string, apiKeyEnv: string)
    requires OverrideIndex(rows, Normalize(url)) == -1
    ensures var rows' := Upserted(rows, url, provider, apiKey, apiKeyEnv);
            && |rows'| == |rows| + 1 && rows'[..|rows|] == rows
            && (OverrideIndex(rows', url) == |rows| <==> Normalize(url) != "" && !Loose(url))
            && (|Upserted(rows', url, provider, apiKey, apiKeyEnv)| == |rows'| <==> Normalize(Normalize(url)) != "")
  {
    NormalizeIdempotentIff(url);
    var norm := Normalize(url);
    var rows' := Upserted(rows, url, provider, apiKey, apiKeyEnv);
    if norm != "" && !Loose(url) {
      FirstMatchIs(rows', norm, |rows|);
    } else if norm != "" {
      assert !Matches(rows'[|rows|], norm);
      if Normalize(norm) != "" {
        FirstMatchIs(rows', Normalize(norm), |rows|);
      }
    }
  }

  lemma UpsertKept(rows: seq<Row>, url: string, provider: string, apiKey: string, apiKeyEnv: string)
    requires !Loose(url) && OverrideIndex(rows, Normalize(url)) >= 0
    ensures var i := OverrideIndex(rows, Normalize(url));
            var rows' := Upserted(rows, url, provider, apiKey, apiKeyEnv);
            OverrideIndex(rows', url) == i && |rows'| == |rows| && forall k :: 0 <= k < |rows| && k != i ==>
                rows'[k] == rows[k]
  {
    NormalizeIdempotentIff(url);
    var i := OverrideIndex(rows, Normalize(url));
    var rows' := Upserted(rows, url, provider, apiKey, apiKeyEnv);
    FirstMatchIs(rows', Normalize(url), i);
  }

  /** Upserting twice is upserting once, unless a new row is given both kinds of credential:
      it stores both, and the second upsert then drops the environment variable. */
  lemma UpsertIdempotentIff(rows: seq<Row>, url: string, provider: string, apiKey: string, apiKeyEnv: string)
    requires Normalize(url) != "" && !Loose(url)
    ensures var rows' := Upserted(rows, url, provider, apiKey, apiKeyEnv);
            Upserted(rows', url, provider, apiKey, apiKeyEnv) == rows'
            <==> !(OverrideIndex(rows, Normalize(url)) == -1 && apiKey != "" && apiKeyEnv != "")
  {
    NormalizeIdempotentIff(url);
    var rows' := Upserted(rows, url, provider, apiKey, apiKeyEnv);
    if OverrideIndex(rows, Normalize(url)) == -1 {
      UpsertFoundIff(rows, url, provider, apiKey, apiKeyEnv);
      assert Upserted(rows', url, provider, apiKey, apiKeyEnv)[|rows|] ==
          WithCredential(rows'[|rows|], provider, apiKey, apiKeyEnv);
    } else {
      UpsertKept(rows, url, provider, apiKey, apiKeyEnv);
    }
  }

  /** After an upsert the URL resolves to a row with the provider and the credential given. A
      key that is given replaces what an older row had, or else a variable does; with neither,
      an older row keeps its own. Its URL never changes, and it is enabled either way. */
  lemma CredentialStored(rows: seq<Row>, url: string, provider: string, apiKey: string, apiKeyEnv: string)
    requires Normalize(url) != "" && !Loose(url)
    ensures var rows' := Upserted(rows, url, provider, apiKey, apiKeyEnv); var i := OverrideIndex(rows', url);
            && i >= 0 && rows'[i].provider == provider && rows'[i].enabled && rows'[i].local
            && Normalize(rows'[i].baseUrl) == Normalize(url)
            && (i < |rows| ==> rows'[i].baseUrl == rows[i].baseUrl)
            && (apiKey != "" ==> rows'[i].apiKey == apiKey && (i < |rows| ==> rows'[i].apiKeyEnv == ""))
            && (apiKey == "" && apiKeyEnv != "" ==> rows'[i].apiKey == "" && rows'[i].apiKeyEnv == apiKeyEnv)
            && (apiKey == "" && apiKeyEnv == "" ==>
                  (rows'[i].apiKey, rows'[i].apiKeyEnv) ==
                      if i < |rows| then (rows[i].apiKey, rows[i].apiKeyEnv) else ("", ""))
  {
    NormalizeIdempotentIff(url);
    if OverrideIndex(rows, Normalize(url)) == -1 {
      UpsertFoundIff(rows, url, provider, apiKey, apiKeyEnv);
    } else {
      UpsertKept(rows, url, provider, apiKey, apiKeyEnv);
    }
  }

  // ----- the configuration that is edited -----

  class Config {
    var ignoredUrls: seq<string>
    var backends: seq<Row>

    constructor (ignoredUrls: seq<string>, backends: seq<Row>)
      ensures this.ignoredUrls == ignoredUrls && this.backends == backends
    {
      this.ignoredUrls, this.backends := ignoredUrls, backends;
    }

    method AddIgnoredUrl(url: string) returns (added: bool)
      modifies this`ignoredUrls
      ensures ignoredUrls == Added(old(ignoredUrls), url) && added == (ignoredUrls != old(ignoredUrls))
    {
      var norm := Normalize(url);
      if norm == "" || Listed(ignoredUrls, norm) {
        return false;
      }
      ignoredUrls := ignoredUrls + [norm];
      return true;
    }

    method RemoveIgnoredUrl(url: string) returns (removed: bool)
      modifies this`ignoredUrls
      ensures ignoredUrls == Removed(old(ignoredUrls), url) && removed == (ignoredUrls != old(ignoredUrls))
    {
      var norm := Normalize(url);
      if norm == "" {
        return false;
      }
      var kept := Without(ignoredUrls, norm);
      WithoutMembers(ignoredUrls, norm);
      if |kept| == |ignoredUrls| {
        return false;
      }
      ignoredUrls := kept;
      return true;
    }

    method IgnoredUrlConflicts() returns (conflicts: seq<string>)
      ensures conflicts == Conflicts(ignoredUrls, backends) && Distinct(conflicts)
      ensures forall n :: n in conflicts <==> n in Entries(ignoredUrls) && n in ConfiguredUrls(backends)
    {
      var explicit := ConfiguredUrls(backends);
      conflicts := [];
      var seen: set<string> := {};
      for i := 0 to |ignoredUrls|
        invariant conflicts == Conflicts(ignoredUrls[..i], backends)
        invariant forall n :: n in seen <==> n in conflicts
      {
        ConflictsNext(ignoredUrls, backends, i);
        var norm := Normalize(ignoredUrls[i]);
        if norm != "" && norm in explicit && norm !in seen {
          seen := seen + {norm};
          conflicts := conflicts + [norm];
        }
      }
      assert ignoredUrls[..|ignoredUrls|] == ignoredUrls;
      ConflictMembers(ignoredUrls, backends);
      ConflictsOnce(ignoredUrls, backends);
    }

    method UpsertBackendCredential(url: string, provider: string, apiKey: string, apiKeyEnv: string) returns (row: Row)
      modifies this`backends
      ensures backends == Upserted(old(backends), url, provider, apiKey, apiKeyEnv)
      ensures row in backends && row.provider == provider && row.enabled && row.local
    {
      var norm := Normalize(url);
      var idx := OverrideIndex(backends, norm);
      if idx >= 0 {
        row := backends[idx];
        if apiKey != "" {
          row := row.(apiKey := apiKey, apiKeyEnv := "");
        } else if apiKeyEnv != "" {
          row := row.(apiKeyEnv := apiKeyEnv, apiKey := "");
        }
        row := row.(provider := provider, enabled := true, local := true);
        backends := backends[idx := row];
        assert backends[idx] == row;
        return;
      }
      row := Row(norm, provider, apiKey, apiKeyEnv, true, true);
      backends := backends + [row];
    }
  }
}
