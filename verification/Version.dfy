/** Lenient parsing, printing, ordering and matching of version strings (internal/version). */
module Version {
  import opened Options
  import opened Text

  /** What parsing yields: three numbers, of which the text gave the first `parts`, and the text after them. */
  datatype V = V(major: nat, minor: nat, patch: nat, parts: nat, suffix: string)

  const PRERELEASE_WORDS := ["alpha", "beta", "rc", "pre", "preview", "dev", "snapshot", "nightly"]

  /** The optional group `(\.(\d+))?`: the digits, if any, and what follows them. */
  function DotNumber(s: string): (string, string) {
    if s != "" && s[0] == '.' && DigitSpan(s[1..]).0 != "" then DigitSpan(s[1..]) else ("", s)
  }

  /** The optional separator before the suffix. */
  function StripSeparator(s: string): string {
    if s != "" && s[0] in {'-', '+', '.', '_'} then s[1..] else s
  }

  /** The digit groups that the version pattern captures, and what follows them. */
  datatype Groups = Groups(major: string, minor: string, patch: string, rest: string)

  function Scan(s: string): Groups {
    var (major, afterMajor) := DigitSpan(s);
    var (minor, afterMinor) := DotNumber(afterMajor);
    var (patch, rest) := if minor == "" then ("", afterMinor) else DotNumber(afterMinor);
    Groups(major, minor, patch, rest)
  }

  /** What the captured groups mean. A newline in the rest is never matched by `.`. */
  function FromGroups(g: Groups): Option<V> {
    if g.major == "" || '\n' in g.rest then None
    else
      var parts := if g.patch != "" then 3 else if g.minor != "" then 2 else 1;
      Some(V(Atoi(g.major), Atoi(g.minor), Atoi(g.patch), parts, StripSeparator(g.rest)))
  }

  /** The version pattern after the optional leading v. */
  function ParseCore(s: string): Option<V> {
    FromGroups(Scan(s))
  }

  function StripV(s: string): string {
    if s != "" && (s[0] == 'v' || s[0] == 'V') then s[1..] else s
  }

  function Parse(s: string): Option<V> {
    ParseCore(StripV(TrimSpace(s)))
  }

  predicate Parses(s: string) {
    Parse(s).Some?
  }

  /** As many numbers as the text gave, with dots between. */
  function CoreText(v: V): string {
    if v.parts == 1 then Itoa(v.major)
    else if v.parts == 2 then Itoa(v.major) + "." + Itoa(v.minor)
    else Itoa(v.major) + "." + Itoa(v.minor) + "." + Itoa(v.patch)
  }

  predicate MarksPrerelease(suffix: string, i: nat)
    requires i < |suffix|
  {
    && (i == 0 || suffix[i - 1] in {'.', '-', '_'})
    && exists w | w in PRERELEASE_WORDS :: HasPrefix(ToLower(suffix[i..]), w)
  }

  predicate PrereleaseSuffix(suffix: string) {
    exists i | 0 <= i < |suffix| :: MarksPrerelease(suffix, i)
  }

  predicate Prerelease(v: V) {
    v.suffix != "" && PrereleaseSuffix(v.suffix)
  }

  /** The numbers, and the suffix if it makes the version a prerelease. */
  function Display(v: V): string {
    if Prerelease(v) then CoreText(v) + "-" + v.suffix else CoreText(v)
  }

  /** Number by number; on a tie, only whether there is a prerelease mark counts, not what it says. */
  function Compare(a: V, b: V): int {
    if a.major != b.major then (if a.major < b.major then -1 else 1)
    else if a.minor != b.minor then (if a.minor < b.minor then -1 else 1)
    else if a.patch != b.patch then (if a.patch < b.patch then -1 else 1)
    else if Prerelease(a) && !Prerelease(b) then -1
    else if !Prerelease(a) && Prerelease(b) then 1
    else 0
  }

  /** Extends the order to all strings: text that is no version is below all versions, and ordered as text. */
  function CompareStrings(a: string, b: string): int {
    match (Parse(a), Parse(b))
    case (None, None) => CompareText(a, b)
    case (None, Some(_)) => -1
    case (Some(_), None) => 1
    case (Some(va), Some(vb)) => Compare(va, vb)
  }

  function Normalize(s: string): string {
    match Parse(s)
    case Some(v) => CoreText(v)
    case None => s
  }

  /** A declared version speaks only for the numbers it gives; a full prerelease speaks for its suffix too. */
  predicate Matches(declared: string, actual: string) {
    if declared == "" || actual == "" then declared == actual
    else
      match (Parse(declared), Parse(actual))
      case (Some(d), Some(a)) =>
        if d.major != a.major then false
        else if d.parts >= 2 && d.minor != a.minor then false
        else if d.parts >= 3 && d.patch != a.patch then false
        else if d.parts >= 3 && (Prerelease(d) || Prerelease(a)) then d.suffix == a.suffix
        else true
      case _ => declared == actual
  }

  // ---------------------------------------------------------------- printing and reading back

  /** What every version read from text looks like: absent numbers are zero, and the suffix can be
      appended to a numeric core and survive trimming. */
  predicate FromText(v: V) {
    && 1 <= v.parts <= 3
    && v.major <= MAX_INT && v.minor <= MAX_INT && v.patch <= MAX_INT
    && (v.parts < 2 ==> v.minor == 0)
    && (v.parts < 3 ==> v.patch == 0)
    && '\n' !in v.suffix
    && (v.suffix != "" ==> !IsSpace(v.suffix[|v.suffix| - 1]))
  }

  lemma ParsedIsFromText(s: string)
    requires Parses(s)
    ensures FromText(Parse(s).value)
  {
    TrimSpaceEnds(s);
    ParseCoreFromText(StripV(TrimSpace(s)));
  }

  lemma ParseCoreFromText(s: string)
    requires ParseCore(s).Some?
    requires s != "" ==> !IsSpace(s[|s| - 1])
    ensures FromText(ParseCore(s).value)
  {
    var (major, afterMajor) := DigitSpan(s);
    var afterMinor := DotNumber(afterMajor).1;
    var rest := Scan(s).rest;
    DigitSpanSplits(s);
    DotNumberTail(afterMajor);
    DotNumberTail(afterMinor);
    assert rest != "" ==> rest[|rest| - 1] == s[|s| - 1];
    StripSeparatorKeeps(rest);
    assert Value("") == 0;
  }

  lemma StripSeparatorKeeps(rest: string)
    ensures '\n' !in rest ==> '\n' !in StripSeparator(rest)
    ensures StripSeparator(rest) != "" ==> rest != "" && StripSeparator(rest)[|StripSeparator(rest)| - 1] == rest[|rest| - 1]
  {
  }

  lemma DotNumberTail(s: string)
    ensures var rest := DotNumber(s).1; rest != "" ==> s != "" && rest[|rest| - 1] == s[|s| - 1]
  {
    if s != "" {
      DigitSpanSplits(s[1..]);
    }
  }

  /** Reading ".digits" off the front of a text that goes on with something other than a digit. */
  lemma DotNumberReads(n: nat, rest: string)
    requires rest == "" || !IsDigit(rest[0])
    ensures Itoa(n) != "" && DotNumber("." + Itoa(n) + rest) == (Itoa(n), rest)
  {
    AtoiItoa(n);
    var s := "." + Itoa(n) + rest;
    DigitSpanStops(Itoa(n), rest);
    assert s[1..] == Itoa(n) + rest;
  }

  /** A core followed by nothing, or by a dash and any newline-free text, reads back as written. */
  lemma ParseCoreReads(v: V, tail: string)
    requires FromText(v)
    requires tail == "" || (tail[0] == '-' && '\n' !in tail)
    ensures ParseCore(CoreText(v) + tail) == Some(v.(suffix := if tail == "" then "" else tail[1..]))
  {
    ScanReads(v, tail);
    AtoiReads(v.major);
    AtoiReads(v.minor);
    AtoiReads(v.patch);
    FromPrintedGroups(v, tail);
  }

  lemma AtoiReads(n: nat)
    ensures Itoa(n) != "" && AllDigits(Itoa(n))
    ensures n <= MAX_INT ==> Atoi(Itoa(n)) == n
    ensures Atoi("") == 0
  {
    AtoiItoa(n);
  }

  /** The groups that printing v gives. */
  function PrintedGroups(v: V, tail: string): Groups {
    Groups(Itoa(v.major), if v.parts >= 2 then Itoa(v.minor) else "", if v.parts == 3 then Itoa(v.patch) else "", tail)
  }

  lemma FromPrintedGroups(v: V, tail: string)
    requires FromText(v)
    requires tail == "" || (tail[0] == '-' && '\n' !in tail)
    ensures FromGroups(PrintedGroups(v, tail)) == Some(v.(suffix := if tail == "" then "" else tail[1..]))
  {
    AtoiReads(v.major);
    AtoiReads(v.minor);
    AtoiReads(v.patch);
  }

  lemma ScanReads(v: V, tail: string)
    requires 1 <= v.parts <= 3
    requires tail == "" || tail[0] == '-'
    ensures Scan(CoreText(v) + tail) == PrintedGroups(v, tail)
  {
    if v.parts == 1 {
      MajorReads(v.major, tail);
    } else if v.parts == 2 {
      var afterMajor := "." + Itoa(v.minor) + tail;
      assert CoreText(v) + tail == Itoa(v.major) + afterMajor;
      MajorReads(v.major, afterMajor);
      DotNumberReads(v.minor, tail);
    } else {
      var afterMinor := "." + Itoa(v.patch) + tail;
      var afterMajor := "." + Itoa(v.minor) + afterMinor;
      assert CoreText(v) + tail == Itoa(v.major) + afterMajor;
      MajorReads(v.major, afterMajor);
      DotNumberReads(v.minor, afterMinor);
      DotNumberReads(v.patch, tail);
    }
  }

  lemma MajorReads(major: nat, rest: string)
    requires rest == "" || !IsDigit(rest[0])
    ensures DigitSpan(Itoa(major) + rest) == (Itoa(major), rest)
  {
    AtoiItoa(major);
    DigitSpanStops(Itoa(major), rest);
  }

  lemma CoreTextEnds(v: V)
    requires FromText(v)
    ensures CoreText(v) != "" && IsDigit(CoreText(v)[0]) && IsDigit(CoreText(v)[|CoreText(v)| - 1])
  {
    AtoiItoa(v.major);
    AtoiItoa(v.minor);
    AtoiItoa(v.patch);
  }

  /** The same, for Parse: the text starts with a digit, so nothing is trimmed or stripped. */
  lemma ParseReads(v: V, tail: string)
    requires FromText(v)
    requires tail == "" || (tail[0] == '-' && '\n' !in tail && !IsSpace(tail[|tail| - 1]))
    ensures Parse(CoreText(v) + tail) == Some(v.(suffix := if tail == "" then "" else tail[1..]))
  {
    var s := CoreText(v) + tail;
    CoreTextEnds(v);
    assert s[0] == CoreText(v)[0];
    assert s[|s| - 1] == if tail == "" then CoreText(v)[|CoreText(v)| - 1] else tail[|tail| - 1];
    assert TrimSpace(s) == s && StripV(s) == s;
    ParseCoreReads(v, tail);
  }

  /** Display keeps all three numbers and the precision, and exactly a prerelease's suffix. */
  lemma DisplayRoundTrip(s: string)
    requires Parses(s)
    ensures
      var v := Parse(s).value;
      Parse(Display(v)) == Some(v.(suffix := if Prerelease(v) then v.suffix else ""))
  {
    ParsedIsFromText(s);
    DisplayReads(Parse(s).value);
  }

  lemma DisplayReads(v: V)
    requires FromText(v)
    ensures Parse(Display(v)) == Some(v.(suffix := if Prerelease(v) then v.suffix else ""))
  {
    if Prerelease(v) {
      var tail := "-" + v.suffix;
      assert Display(v) == CoreText(v) + tail;
      ParseReads(v, tail);
    } else {
      assert Display(v) == CoreText(v) + "";
      ParseReads(v, "");
    }
  }

  /** Displaying is idempotent, ties with what was displayed, and accepts it. */
  lemma DisplayIsCanonical(s: string)
    requires Parses(s)
    ensures
      var shown := Display(Parse(s).value);
      && Parses(shown) && Display(Parse(shown).value) == shown
      && CompareStrings(shown, s) == 0
      && Matches(shown, s)
  {
    DisplayRoundTrip(s);
    ParsedIsFromText(s);
    CoreTextEnds(Parse(s).value);
    assert s != "";
  }

  /** Normalizing is idempotent, whatever the text. */
  lemma NormalizeIdempotent(s: string)
    ensures Normalize(Normalize(s)) == Normalize(s)
  {
    if Parses(s) {
      ParsedIsFromText(s);
      var v := Parse(s).value;
      ParseReads(v, "");
      assert CoreText(v) + "" == CoreText(v);
    }
  }

  // ---------------------------------------------------------------- the order

  /** Antisymmetry and totality of the order over all strings, parseable or not. */
  lemma CompareStringsAntisymmetric(a: string, b: string)
    ensures CompareStrings(b, a) == -CompareStrings(a, b)
    ensures CompareStrings(a, b) in {-1, 0, 1}
    ensures CompareStrings(a, a) == 0
  {
    CompareTextAntisymmetric(a, b);
    CompareTextAntisymmetric(a, a);
  }

  /** Transitivity over all strings; a strict step makes the whole strict. */
  lemma CompareStringsTransitive(a: string, b: string, c: string)
    requires CompareStrings(a, b) <= 0 && CompareStrings(b, c) <= 0
    ensures CompareStrings(a, c) <= 0
    ensures CompareStrings(a, b) < 0 || CompareStrings(b, c) < 0 ==> CompareStrings(a, c) < 0
  {
    if Parse(a).None? && Parse(b).None? && Parse(c).None? {
      CompareTextTransitive(a, b, c);
    }
  }

  /** What ties: equal text for unparseable strings, equal numbers and prerelease mark otherwise. */
  lemma CompareStringsTies(a: string, b: string)
    ensures CompareStrings(a, b) == 0 <==>
            match (Parse(a), Parse(b))
            case (None, None) => a == b
            case (Some(va), Some(vb)) =>
              va.major == vb.major && va.minor == vb.minor && va.patch == vb.patch && Prerelease(va) == Prerelease(vb)
            case _ => false
  {
    CompareTextAntisymmetric(a, b);
  }

  // ---------------------------------------------------------------- the match relation

  lemma MatchesReflexive(s: string)
    ensures Matches(s, s)
  {
  }

  /** Matching on three parts is at least a tie in the order. */
  lemma FullMatchTies(declared: string, actual: string)
    requires Parses(declared) && Parse(declared).value.parts == 3
    requires Matches(declared, actual)
    ensures CompareStrings(declared, actual) == 0
  {
    CompareStringsTies(declared, actual);
    assert Parse("").None?;
  }

  /** For parseable a that accepts b, everything b accepts is accepted by a
      exactly when a is not more precise than b. */
  lemma MatchesTransitiveExactly(a: string, b: string)
    requires Parses(a) && Matches(a, b)
    ensures Parses(b)
    ensures (forall c :: Matches(b, c) ==> Matches(a, c)) <==> Parse(a).value.parts <= Parse(b).value.parts
  {
    assert Parse("").None?;
    ParsedIsFromText(a);
    ParsedIsFromText(b);
    if Parse(a).value.parts > Parse(b).value.parts {
      var c := TooLoose(a, b);
      assert Matches(b, c) && !Matches(a, c);
    }
  }

  /** A version that agrees with b on b's parts and differs from a on the next one. */
  lemma TooLoose(a: string, b: string) returns (c: string)
    requires Parses(a) && Parses(b) && Matches(a, b)
    requires Parse(a).value.parts > Parse(b).value.parts
    ensures Matches(b, c) && !Matches(a, c)
  {
    ParsedIsFromText(a);
    ParsedIsFromText(b);
    assert Parse("").None?;
    var v := Parse(a).value;
    var other := if Parse(b).value.parts == 1
                 then V(v.major, if v.minor == 0 then 1 else 0, 0, 3, "")
                 else V(v.major, v.minor, if v.patch == 0 then 1 else 0, 3, "");
    ParseReads(other, "");
    c := CoreText(other) + "";
  }

  /** Everything between two accepted versions is accepted: the accepted versions are an interval. */
  ghost predicate AcceptsAnInterval(declared: string) {
    forall low, mid, high ::
      Matches(declared, low) && Matches(declared, high) && CompareStrings(low, mid) <= 0 && CompareStrings(mid, high) <= 0
      ==> Matches(declared, mid)
  }

  /** The one kind of declared version that does not accept an interval. */
  predicate PinsPrerelease(declared: string) {
    Parses(declared) && Parse(declared).value.parts == 3 && Prerelease(Parse(declared).value)
  }

  lemma AcceptsAnIntervalExactly(declared: string)
    ensures AcceptsAnInterval(declared) <==> !PinsPrerelease(declared)
  {
    if PinsPrerelease(declared) {
      var mid := OtherPrerelease(declared);
      MatchesReflexive(declared);
      assert Matches(declared, declared) && !Matches(declared, mid);
    } else {
      forall low, mid, high |
        Matches(declared, low) && Matches(declared, high) && CompareStrings(low, mid) <= 0 && CompareStrings(mid, high) <= 0
        ensures Matches(declared, mid)
      {
        BetweenAccepted(declared, low, mid, high);
      }
    }
  }

  /** A prerelease that ties with the declared one but carries another suffix. */
  lemma OtherPrerelease(declared: string) returns (mid: string)
    requires PinsPrerelease(declared)
    ensures CompareStrings(declared, mid) == 0 && CompareStrings(mid, declared) == 0
    ensures !Matches(declared, mid)
  {
    var v := Parse(declared).value;
    ParsedIsFromText(declared);
    ExtendedPrerelease(v.suffix);
    mid := ReadBack(v, v.suffix + "x");
    assert Parse("").None?;
    var other := v.(suffix := v.suffix + "x");
    assert Prerelease(other) && |other.suffix| != |v.suffix|;
  }

  /** Some text that reads as v with the given suffix. */
  lemma ReadBack(v: V, suffix: string) returns (s: string)
    requires FromText(v.(suffix := suffix))
    ensures Parse(s) == Some(v.(suffix := suffix))
  {
    if suffix == "" {
      ParseReads(v.(suffix := suffix), "");
      s := CoreText(v) + "";
    } else {
      ParseReads(v.(suffix := suffix), "-" + suffix);
      s := CoreText(v) + ("-" + suffix);
    }
  }

  lemma ExtendedPrerelease(suffix: string)
    requires PrereleaseSuffix(suffix)
    ensures PrereleaseSuffix(suffix + "x")
  {
    var i :| 0 <= i < |suffix| && MarksPrerelease(suffix, i);
    var w :| w in PRERELEASE_WORDS && HasPrefix(ToLower(suffix[i..]), w);
    assert (suffix + "x")[i..] == suffix[i..] + "x";
    assert ToLower(suffix[i..] + "x")[..|suffix[i..]|] == ToLower(suffix[i..]);
    assert HasPrefix(ToLower((suffix + "x")[i..]), w);
    assert MarksPrerelease(suffix + "x", i);
  }

  lemma BetweenAccepted(declared: string, low: string, mid: string, high: string)
    requires !PinsPrerelease(declared)
    requires Matches(declared, low) && Matches(declared, high)
    requires CompareStrings(low, mid) <= 0 && CompareStrings(mid, high) <= 0
    ensures Matches(declared, mid)
  {
    assert Parse("").None?;
    CompareTextAntisymmetric(low, mid);
    CompareTextAntisymmetric(mid, high);
    if Parse(declared).None? {
      assert low == declared == high;
    }
  }
}
