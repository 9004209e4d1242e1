/** Recognising container images by pattern, whatever mirror, tag or digest they carry (internal/catalog). */
module Images {
  import opened Options

  /** strings.Index and strings.LastIndex for one character; -1 when it does not occur. */
  function Index(s: string, c: char): (i: int)
    ensures -1 <= i < |s|
    ensures i >= 0 ==> s[i] == c
    ensures forall j | 0 <= j < (if i < 0 then |s| else i) :: s[j] != c
  {
    if s == "" then -1
    else if s[0] == c then 0
    else
      var i := Index(s[1..], c);
      assert forall j | 0 < j < |s| :: s[j] == s[1..][j - 1];
      if i < 0 then -1 else i + 1
  }

  function LastIndex(s: string, c: char): (i: int)
    ensures -1 <= i < |s|
    ensures i >= 0 ==> s[i] == c
    ensures forall j | i < j < |s| :: s[j] != c
  {
    if s == "" then -1
    else if s[|s| - 1] == c then |s| - 1
    else
      var rest := s[..|s| - 1];
      assert forall j | 0 <= j < |rest| :: s[j] == rest[j];
      LastIndex(rest, c)
  }

  function WithoutDigest(ref: string): string {
    if Index(ref, '@') >= 0 then ref[..Index(ref, '@')] else ref
  }

  /** What precedes and what follows the colon of the tag; a colon with a slash after it belongs to a port. */
  function SplitImage(ref: string): (string, string) {
    var r := WithoutDigest(ref);
    var slash, colon := LastIndex(r, '/'), LastIndex(r, ':');
    if colon > slash then (r[..colon], r[colon + 1..]) else (r, "")
  }

  lemma WithoutDigestOf(head: string, digest: string)
    requires '@' !in head
    ensures WithoutDigest(head + "@" + digest) == head
    ensures WithoutDigest(head) == head
  {
    var ref := head + "@" + digest;
    assert ref[|head|] == '@' && ref[..|head|] == head;
    assert forall j | 0 <= j < |head| :: ref[j] == head[j];
    assert Index(ref, '@') == |head|;
  }

  /** A repository path: any registry (with or without a port) and mirror prefix, and no colon after it. */
  predicate IsPath(path: string) {
    '@' !in path && LastIndex(path, ':') <= LastIndex(path, '/')
  }

  lemma PrefixedIsPath(prefix: string, repo: string)
    requires '@' !in prefix && '@' !in repo && ':' !in repo
    ensures IsPath(prefix + "/" + repo) && IsPath(repo)
  {
    var path := prefix + "/" + repo;
    assert path[|prefix|] == '/';
    assert forall j | |prefix| < j < |path| :: path[j] == repo[j - |prefix| - 1];
    assert LastIndex(path, '/') >= |prefix|;
    assert LastIndex(path, ':') <= |prefix|;
  }

  /** Tag and digest are split off exactly, on any path. */
  lemma SplitImageReads(path: string, tag: string, digest: string)
    requires IsPath(path) && '/' !in tag && ':' !in tag && '@' !in tag
    ensures SplitImage(path) == (path, "")
    ensures SplitImage(path + "@" + digest) == (path, "")
    ensures SplitImage(path + ":" + tag) == (path, tag)
    ensures SplitImage(path + ":" + tag + "@" + digest) == (path, tag)
  {
    var head := path + ":" + tag;
    WithoutDigestOf(path, digest);
    WithoutDigestOf(head, digest);
    assert head[|path|] == ':' && head[|path| + 1..] == tag && head[..|path|] == path;
    assert forall j | |path| < j < |head| :: head[j] == tag[j - |path| - 1];
    assert LastIndex(head, ':') == |path| && LastIndex(head, '/') < |path|;
  }

  /** Nothing but the digest is lost: repository and tag make up the rest of the reference. */
  lemma SplitImageIsLossless(ref: string)
    ensures
      var (repo, tag) := SplitImage(ref);
      && (WithoutDigest(ref) == repo || WithoutDigest(ref) == repo + ":" + tag)
      && '/' !in tag && ':' !in tag && '@' !in tag && '@' !in repo
  {
    var r := WithoutDigest(ref);
    var slash, colon := LastIndex(r, '/'), LastIndex(r, ':');
    assert forall j | 0 <= j < |r| :: r[j] == ref[j] && r[j] != '@';
    if colon > slash {
      var tag := r[colon + 1..];
      assert r == r[..colon] + ":" + tag;
      assert forall j | 0 <= j < |tag| :: tag[j] == r[j + colon + 1];
    }
  }

  // ---------------------------------------------------------------- matching

  function Split(s: string): (r: seq<string>)
    ensures r != []
    decreases |s|
  {
    var i := Index(s, '/');
    if i < 0 then [s] else [s[..i]] + Split(s[i + 1..])
  }

  function Join(segments: seq<string>): string {
    if segments == [] then ""
    else if |segments| == 1 then segments[0]
    else segments[0] + "/" + Join(segments[1..])
  }

  /** path.Match, whose errors count as no match: an arbitrary fixed function. */
  type Glob = (string, string) -> bool

  /** Whether some number of leading segments can be left off so that the pattern accepts the rest. */
  predicate MatchRef(glob: Glob, pattern: string, ref: string) {
    var segments := Split(ref);
    exists i | 0 <= i < |segments| :: glob(pattern, Join(segments[i..]))
  }

  /** Where a trailing path may start. */
  predicate StartsSegment(ref: string, k: nat) {
    k == 0 || (k <= |ref| && ref[k - 1] == '/')
  }

  lemma {:induction false} JoinSplit(s: string)
    ensures Join(Split(s)) == s
    decreases |s|
  {
    var i := Index(s, '/');
    if i >= 0 {
      var segments, rest := Split(s), Split(s[i + 1..]);
      JoinSplit(s[i + 1..]);
      assert segments == [s[..i]] + rest;
      hide Join, Split;
      JoinMore(s[..i], rest);
      assert s == s[..i] + "/" + s[i + 1..];
    } else {
      assert Split(s) == [s];
    }
  }

  lemma JoinMore(head: string, rest: seq<string>)
    requires rest != []
    ensures Join([head] + rest) == head + "/" + Join(rest)
  {
    assert ([head] + rest)[1..] == rest;
  }

  /** Joining segments from the i-th on gives a trailing path. */
  lemma {:induction false} SegmentsToSuffix(s: string, i: nat) returns (k: nat)
    requires i < |Split(s)|
    ensures k <= |s| && StartsSegment(s, k) && Join(Split(s)[i..]) == s[k..]
    decreases |s|
  {
    hide Split, Join, Index;
    if i == 0 {
      k := 0;
      JoinSplit(s);
      assert Split(s)[0..] == Split(s);
    } else {
      SplitMore(s);
      var slash := Index(s, '/');
      var rest := s[slash + 1..];
      var k' := SegmentsToSuffix(rest, i - 1);
      k := slash + 1 + k';
      assert Split(s)[i..] == Split(rest)[i - 1..];
      assert rest[k'..] == s[k..];
      assert k' > 0 ==> s[k - 1] == rest[k' - 1];
    }
  }

  /** More than one segment means that there is a slash to split at. */
  lemma SplitMore(s: string)
    requires |Split(s)| > 1
    ensures
      var slash := Index(s, '/');
      0 <= slash < |s| && s[slash] == '/' && Split(s) == [s[..slash]] + Split(s[slash + 1..])
  {
    hide Index;
  }

  /** Every trailing path is some segments joined. */
  lemma {:induction false} SuffixToSegments(s: string, k: nat) returns (i: nat)
    requires k <= |s| && StartsSegment(s, k)
    ensures i < |Split(s)| && Join(Split(s)[i..]) == s[k..]
    decreases |s|
  {
    JoinSplit(s);
    if k == 0 {
      i := 0;
      assert Split(s)[0..] == Split(s) && s[0..] == s;
    } else {
      var slash := Index(s, '/');
      assert 0 <= slash <= k - 1;
      var rest := s[slash + 1..];
      assert k - slash - 1 > 0 ==> rest[k - slash - 2] == s[k - 1];
      var i' := SuffixToSegments(rest, k - slash - 1);
      i := i' + 1;
      assert Split(s)[i..] == Split(rest)[i'..];
      assert rest[k - slash - 1..] == s[k..];
    }
  }

  /** Matching is matching some trailing path: the text after a slash, or all of it. */
  lemma MatchRefExactly(glob: Glob, pattern: string, ref: string)
    ensures MatchRef(glob, pattern, ref) <==>
            exists k | 0 <= k <= |ref| :: StartsSegment(ref, k) && glob(pattern, ref[k..])
  {
    if MatchRef(glob, pattern, ref) {
      var i :| 0 <= i < |Split(ref)| && glob(pattern, Join(Split(ref)[i..]));
      var k := SegmentsToSuffix(ref, i);
      assert StartsSegment(ref, k) && glob(pattern, ref[k..]);
    }
    if k :| 0 <= k <= |ref| && StartsSegment(ref, k) && glob(pattern, ref[k..]) {
      var i := SuffixToSegments(ref, k);
      assert glob(pattern, Join(Split(ref)[i..]));
    }
  }

  /** A pattern that matches a repository also matches it behind any registry or mirror. */
  lemma MirrorsMatch(glob: Glob, pattern: string, prefix: string, repo: string)
    requires MatchRef(glob, pattern, repo)
    ensures MatchRef(glob, pattern, prefix + "/" + repo)
  {
    MatchRefExactly(glob, pattern, repo);
    var path := prefix + "/" + repo;
    MatchRefExactly(glob, pattern, path);
    var k :| 0 <= k <= |repo| && StartsSegment(repo, k) && glob(pattern, repo[k..]);
    var k' := |prefix| + 1 + k;
    assert path[k'..] == repo[k..];
    assert path[k' - 1] == if k == 0 then '/' else repo[k - 1];
    assert StartsSegment(path, k') && glob(pattern, path[k'..]);
  }

  /** One component's image patterns; the catalog lists components by name. */
  datatype Entry = Entry(name: string, patterns: seq<string>)

  predicate EntryMatches(glob: Glob, e: Entry, ref: string) {
    exists i | 0 <= i < |e.patterns| :: MatchRef(glob, e.patterns[i], ref)
  }

  /** The place of the first component, by name, that has a pattern for ref. */
  function FirstMatch(glob: Glob, entries: seq<Entry>, ref: string): (found: Option<nat>)
    ensures
      match found
      case None => forall i | 0 <= i < |entries| :: !EntryMatches(glob, entries[i], ref)
      case Some(k) =>
        k < |entries| && EntryMatches(glob, entries[k], ref)
        && forall i | 0 <= i < k :: !EntryMatches(glob, entries[i], ref)
  {
    if entries == [] then None
    else
      var rest, last := entries[..|entries| - 1], |entries| - 1;
      var found := FirstMatch(glob, rest, ref);
      if found.Some? then found else if EntryMatches(glob, entries[last], ref) then Some(last) else None
  }

  method Match(glob: Glob, entries: seq<Entry>, ref: string) returns (found: Option<nat>)
    ensures found == FirstMatch(glob, entries, ref)
  {
    hide MatchRef;
    for n := 0 to |entries|
      invariant forall i | 0 <= i < n :: !EntryMatches(glob, entries[i], ref)
    {
      for p := 0 to |entries[n].patterns|
        invariant forall i | 0 <= i < p :: !MatchRef(glob, entries[n].patterns[i], ref)
      {
        if MatchRef(glob, entries[n].patterns[p], ref) {
          return Some(n);
        }
      }
    }
    return None;
  }

  lemma MirroredEntry(glob: Glob, e: Entry, prefix: string, repo: string)
    requires EntryMatches(glob, e, repo)
    ensures EntryMatches(glob, e, prefix + "/" + repo)
  {
    hide MatchRef;
    var i :| 0 <= i < |e.patterns| && MatchRef(glob, e.patterns[i], repo);
    MirrorsMatch(glob, e.patterns[i], prefix, repo);
  }

  /** An image whose repository is recognised is recognised behind any mirror, with any tag and digest, as the same
      component or one of an earlier name; as the same exactly when no earlier one accepts the longer path. */
  lemma ImageRecognised(glob: Glob, entries: seq<Entry>, prefix: string, repo: string, tag: string, digest: string)
    requires '@' !in prefix && '@' !in repo && ':' !in repo
    requires '/' !in tag && ':' !in tag && '@' !in tag
    requires FirstMatch(glob, entries, repo).Some?
    ensures
      var (r, t) := SplitImage(prefix + "/" + repo + ":" + tag + "@" + digest);
      var plain, mirrored := FirstMatch(glob, entries, repo), FirstMatch(glob, entries, r);
      && r == prefix + "/" + repo && t == tag
      && mirrored.Some? && mirrored.value <= plain.value
      && (mirrored == plain <==> forall i | 0 <= i < plain.value :: !EntryMatches(glob, entries[i], r))
  {
    hide MatchRef, SplitImage, EntryMatches;
    PrefixedIsPath(prefix, repo);
    SplitImageReads(prefix + "/" + repo, tag, digest);
    MirroredEntry(glob, entries[FirstMatch(glob, entries, repo).value], prefix, repo);
  }
}
