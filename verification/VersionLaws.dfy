/** What a version text says, which of two versions is higher, and what a declared version accepts, in terms of the
    text and its numbers alone. */
module VersionLaws {
  import opened Options
  import opened Text
  import opened Version

  // ---------------------------------------------------------------- which is higher

  /** Dictionary order: a ends where b goes on, or has the smaller character at the first difference. */
  predicate Precedes(a: string, b: string) {
    exists k | 0 <= k <= |a| && k <= |b| :: a[..k] == b[..k] && SmallerAt(a, b, k)
  }

  predicate SmallerAt(a: string, b: string, k: nat) {
    k < |b| && (k == |a| || (k < |a| && a[k] < b[k]))
  }

  lemma CompareTextExactly(a: string, b: string)
    ensures CompareText(a, b) < 0 <==> Precedes(a, b)
    ensures CompareText(a, b) > 0 <==> Precedes(b, a)
  {
    CompareTextAntisymmetric(a, b);
    TextPrecedes(a, b);
    TextPrecedes(b, a);
  }

  lemma {:induction false} TextPrecedes(a: string, b: string)
    ensures CompareText(a, b) < 0 <==> Precedes(a, b)
  {
    if a != "" && b != "" && a[0] == b[0] {
      TextPrecedes(a[1..], b[1..]);
      if k :| 0 <= k <= |a[1..]| && k <= |b[1..]| && a[1..][..k] == b[1..][..k] && SmallerAt(a[1..], b[1..], k) {
        assert a[..k + 1] == [a[0]] + a[1..][..k] && b[..k + 1] == [b[0]] + b[1..][..k];
        assert SmallerAt(a, b, k + 1);
      }
      if k :| 0 <= k <= |a| && k <= |b| && a[..k] == b[..k] && SmallerAt(a, b, k) {
        assert k > 0;
        assert a[1..][..k - 1] == a[..k][1..] && b[1..][..k - 1] == b[..k][1..];
        assert SmallerAt(a[1..], b[1..], k - 1);
      }
    } else if a != "" && b != "" {
      if k :| 0 <= k <= |a| && k <= |b| && a[..k] == b[..k] && SmallerAt(a, b, k) {
        SameFirst(a, b, k);
      }
      assert a[0] < b[0] ==> a[..0] == b[..0] && SmallerAt(a, b, 0);
    } else {
      assert a == "" && b != "" ==> a[..0] == b[..0] && SmallerAt(a, b, 0);
    }
  }

  lemma SameFirst(a: string, b: string, k: nat)
    requires k <= |a| && k <= |b| && a[..k] == b[..k]
    ensures k > 0 ==> a[0] == b[0]
  {
    assert k > 0 ==> a[..k][0] == a[0] && b[..k][0] == b[0];
  }

  /** Raising a number, with the numbers before it equal, gives a higher version, whatever follows; with all numbers
      equal, a prerelease is below what is none. */
  predicate Below(a: V, b: V) {
    || a.major < b.major
    || (a.major == b.major && a.minor < b.minor)
    || (a.major == b.major && a.minor == b.minor && a.patch < b.patch)
    || (a.major == b.major && a.minor == b.minor && a.patch == b.patch && Prerelease(a) && !Prerelease(b))
  }

  /** Which of two strings is lower: by the numbers for versions, any other text below every version, and such text
      by dictionary order. */
  lemma LowerExactly(a: string, b: string)
    ensures CompareStrings(a, b) < 0 <==>
            match (Parse(a), Parse(b))
            case (Some(va), Some(vb)) => Below(va, vb)
            case (None, Some(_)) => true
            case (Some(_), None) => false
            case (None, None) => Precedes(a, b)
  {
    CompareTextExactly(a, b);
  }

  /** A text that v prints as, with any suffix: what follows the numbers. */
  predicate Tail(tail: string) {
    tail == "" || (tail[0] == '-' && '\n' !in tail && !IsSpace(tail[|tail| - 1]))
  }

  predicate NumbersBelow(v: V, w: V) {
    v.major < w.major || (v.major == w.major && (v.minor < w.minor || (v.minor == w.minor && v.patch < w.patch)))
  }

  /** Of two printed versions the one with the first smaller number is lower, and of two with equal numbers the one
      whose suffix marks a prerelease. */
  lemma PrintedOrder(v: V, w: V, tail: string, other: string)
    requires FromText(v) && FromText(w) && Tail(tail) && Tail(other)
    ensures NumbersBelow(v, w) ==> CompareStrings(CoreText(v) + tail, CoreText(w) + other) < 0
    ensures !NumbersBelow(v, w) && !NumbersBelow(w, v) ==>
              (CompareStrings(CoreText(v) + tail, CoreText(w) + other) < 0 <==> Marked(tail) && !Marked(other))
  {
    ParseReads(v, tail);
    ParseReads(w, other);
    LowerExactly(CoreText(v) + tail, CoreText(w) + other);
  }

  predicate Marked(tail: string) {
    tail != "" && PrereleaseSuffix(tail[1..])
  }

  // ---------------------------------------------------------------- prerelease marks

  /** The same letters, in upper or lower case. */
  predicate SameLetter(a: char, b: char) {
    || a == b
    || ('A' <= a <= 'Z' && 'a' <= b <= 'z' && b as int - 'a' as int == a as int - 'A' as int)
    || ('A' <= b <= 'Z' && 'a' <= a <= 'z' && a as int - 'a' as int == b as int - 'A' as int)
  }

  predicate SameLetters(a: string, b: string) {
    |a| == |b| && forall i | 0 <= i < |a| :: SameLetter(a[i], b[i])
  }

  predicate PrereleaseWord(word: string) {
    word in {"alpha", "beta", "rc", "pre", "preview", "dev", "snapshot", "nightly"}
  }

  /** A suffix marks a prerelease exactly when one of the words, in any case, stands at its start or after a dot, a
      dash or an underscore. */
  ghost predicate HasWord(suffix: string) {
    exists i, word | 0 <= i <= |suffix| && PrereleaseWord(word) :: StandsAt(suffix, i, word)
  }

  predicate StandsAt(suffix: string, i: nat, word: string) {
    && i + |word| <= |suffix| && SameLetters(suffix[i..i + |word|], word)
    && (i == 0 || suffix[i - 1] == '.' || suffix[i - 1] == '-' || suffix[i - 1] == '_')
  }

  lemma PrereleaseExactly(suffix: string)
    ensures PrereleaseSuffix(suffix) <==> HasWord(suffix)
  {
    if i :| 0 <= i < |suffix| && MarksPrerelease(suffix, i) {
      var w :| w in PRERELEASE_WORDS && HasPrefix(ToLower(suffix[i..]), w);
      LowerCasePrefix(suffix, i, w);
      assert PrereleaseWord(w) && StandsAt(suffix, i, w);
    }
    if i, word :| 0 <= i <= |suffix| && PrereleaseWord(word) && StandsAt(suffix, i, word) {
      LowerCasePrefix(suffix, i, word);
      assert word in PRERELEASE_WORDS && MarksPrerelease(suffix, i) by {
        assert PRERELEASE_WORDS[0] == "alpha" && PRERELEASE_WORDS[1] == "beta" && PRERELEASE_WORDS[2] == "rc";
        assert PRERELEASE_WORDS[3] == "pre" && PRERELEASE_WORDS[4] == "preview" && PRERELEASE_WORDS[5] == "dev";
        assert PRERELEASE_WORDS[6] == "snapshot" && PRERELEASE_WORDS[7] == "nightly";
      }
    }
  }

  lemma LowerCasePrefix(suffix: string, i: nat, word: string)
    requires i <= |suffix| && forall k | 0 <= k < |word| :: 'a' <= word[k] <= 'z'
    ensures HasPrefix(ToLower(suffix[i..]), word) <==>
            i + |word| <= |suffix| && SameLetters(suffix[i..i + |word|], word)
  {
    if i + |word| <= |suffix| {
      var lower, part := ToLower(suffix[i..]), suffix[i..i + |word|];
      assert forall k | 0 <= k < |word| :: part[k] == suffix[i..][k] == suffix[i + k];
      assert forall k | 0 <= k < |word| :: lower[..|word|][k] == lower[k];
    }
  }

  // ---------------------------------------------------------------- what a declared version accepts

  /** Nothing below the prereleases of a.b.c, and nothing from the prereleases of x.y.z on. */
  predicate Within(v: V, a: nat, b: nat, c: nat, x: nat, y: nat, z: nat) {
    !Below(v, V(a, b, c, 3, "alpha")) && Below(v, V(x, y, z, 3, "alpha"))
  }

  /** Without three numbers a declared version accepts what is of its major or minor line, prereleases included; with
      three, what ties with it, and as a prerelease only of its own suffix. Other text accepts itself. */
  lemma MatchesExactly(declared: string, actual: string)
    ensures Matches(declared, actual) <==>
            match (Parse(declared), Parse(actual))
            case (Some(d), Some(a)) =>
              if d.parts == 1 then Within(a, d.major, 0, 0, d.major + 1, 0, 0)
              else if d.parts == 2 then Within(a, d.major, d.minor, 0, d.major, d.minor + 1, 0)
              else CompareStrings(declared, actual) == 0 && (Prerelease(a) ==> d.suffix == a.suffix)
            case _ => declared == actual
  {
    hide PrereleaseSuffix;
    EmptyIsNoVersion();
    AlphaIsPrerelease();
    if Parses(declared) {
      ParsedIsFromText(declared);
    }
    CompareStringsTies(declared, actual);
    hide Parse;
  }

  lemma EmptyIsNoVersion()
    ensures !Parses("")
  {
  }

  lemma AlphaIsPrerelease()
    ensures PrereleaseSuffix("alpha")
  {
    assert SameLetters("alpha", "alpha");
    assert PrereleaseWord("alpha") && StandsAt("alpha", 0, "alpha") by {
      assert "alpha"[0..0 + 5] == "alpha";
    }
    PrereleaseExactly("alpha");
  }

  // ---------------------------------------------------------------- what version text says

  /** White space, perhaps a v, up to three numbers with dots, anything on the same line, white space. */
  datatype Pieces = Pieces(
    lead: string, mark: string, major: string, minor: string, patch: string, rest: string, trail: string)

  predicate White(s: string) {
    forall i | 0 <= i < |s| :: s[i] == ' ' || '\t' <= s[i] <= '\r'
  }

  function Dotted(number: string): string {
    if number == "" then "" else "." + number
  }

  function Core(p: Pieces): string {
    p.mark + Numbers(p)
  }

  function Numbers(p: Pieces): string {
    p.major + (Dotted(p.minor) + (Dotted(p.patch) + p.rest))
  }

  function Written(p: Pieces): string {
    p.lead + (Core(p) + p.trail)
  }

  /** No piece could be longer: the rest starts with no digit and, with a number to come, with no dot and digit. */
  predicate WellFormed(p: Pieces) {
    && White(p.lead) && White(p.trail) && p.mark in {"", "v", "V"}
    && p.major != "" && AllDigits(p.major) && AllDigits(p.minor) && AllDigits(p.patch)
    && (p.minor == "" ==> p.patch == "")
    && '\n' !in p.rest && (p.rest != "" ==> !IsDigit(p.rest[0]) && !White([p.rest[|p.rest| - 1]]))
    && (p.patch == "" && |p.rest| > 1 && p.rest[0] == '.' ==> !IsDigit(p.rest[1]))
  }

  /** The numbers, those too large held at the largest one; absent ones zero; and the rest but for its separator. */
  function Meaning(p: Pieces): V {
    V(Number(p.major), Number(p.minor), Number(p.patch),
      if p.minor == "" then 1 else if p.patch == "" then 2 else 3,
      if p.rest != "" && (p.rest[0] == '-' || p.rest[0] == '+' || p.rest[0] == '.' || p.rest[0] == '_') then p.rest[1..]
      else p.rest)
  }

  function Number(digits: string): nat {
    if Value(digits) < 0x8000_0000_0000_0000 then Value(digits) else 0x7FFF_FFFF_FFFF_FFFF
  }

  /** A text parses exactly when it is written in such pieces, and then to what they mean. */
  lemma ParseExactly(s: string, v: V)
    ensures Parse(s) == Some(v) <==> exists p :: WellFormed(p) && Written(p) == s && Meaning(p) == v
  {
    if Parse(s) == Some(v) {
      var p := PiecesOf(s);
      assert WellFormed(p) && Written(p) == s && Meaning(p) == v;
    }
    if p :| WellFormed(p) && Written(p) == s && Meaning(p) == v {
      PiecesParse(p);
    }
  }

  lemma PiecesParse(p: Pieces)
    requires WellFormed(p)
    ensures Parse(Written(p)) == Some(Meaning(p))
  {
    hide TrimSpace, Core, StripV, Scan, Value;
    CoreEnds(p);
    Trims(p.lead, Core(p), p.trail);
    MarkStrips(p);
    PiecesScan(p);
  }

  lemma MarkStrips(p: Pieces)
    requires WellFormed(p)
    ensures StripV(Core(p)) == Numbers(p)
  {
    hide Dotted;
    assert Core(p) == p.mark + Numbers(p);
    assert p.mark == "" ==> Core(p) == Numbers(p);
    assert Numbers(p)[0] == p.major[0];
  }

  lemma WhiteIsSpace(c: char)
    ensures IsSpace(c) <==> White([c])
  {
    var s := [c];
    assert s[0] == c;
  }

  lemma CoreEnds(p: Pieces)
    requires WellFormed(p)
    ensures Core(p) != "" && !IsSpace(Core(p)[0]) && !IsSpace(Core(p)[|Core(p)| - 1])
  {
    if p.rest != "" {
      WhiteIsSpace(p.rest[|p.rest| - 1]);
    }
  }

  lemma {:induction false} Trims(lead: string, core: string, trail: string)
    requires White(lead) && White(trail)
    requires core != "" && !IsSpace(core[0]) && !IsSpace(core[|core| - 1])
    ensures TrimSpace(lead + (core + trail)) == core
  {
    if lead == "" {
      assert lead + (core + trail) == core + trail;
      TrimsRight(core, trail);
    } else {
      assert (lead + (core + trail))[1..] == lead[1..] + (core + trail);
      Trims(lead[1..], core, trail);
    }
  }

  lemma {:induction false} TrimsRight(core: string, trail: string)
    requires White(trail) && (core != "" ==> !IsSpace(core[|core| - 1]))
    ensures TrimRight(core + trail) == core
  {
    if trail == "" {
      assert core + trail == core;
    } else {
      assert (core + trail)[..|core + trail| - 1] == core + trail[..|trail| - 1];
      TrimsRight(core, trail[..|trail| - 1]);
    }
  }

  lemma DotReads(number: string, after: string)
    requires AllDigits(number) && (after == "" || !IsDigit(after[0]))
    requires number == "" && |after| > 1 && after[0] == '.' ==> !IsDigit(after[1])
    ensures DotNumber(Dotted(number) + after) == (number, after)
  {
    var s := Dotted(number) + after;
    if number == "" {
      assert s == after;
      assert |after| > 1 ==> DigitSpan(after[1..]).0 == "" || after[0] != '.';
    } else {
      assert s[1..] == number + after;
      DigitSpanStops(number, after);
    }
  }

  lemma PiecesScan(p: Pieces)
    requires WellFormed(p)
    ensures Scan(Numbers(p)) == Groups(p.major, p.minor, p.patch, p.rest)
  {
    var afterMinor := Dotted(p.patch) + p.rest;
    assert p.patch == "" ==> afterMinor == p.rest;
    var afterMajor := Dotted(p.minor) + afterMinor;
    assert p.minor == "" ==> afterMajor == afterMinor;
    DigitSpanStops(p.major, afterMajor);
    DotReads(p.minor, afterMinor);
    DotReads(p.patch, p.rest);
  }

  lemma PiecesOf(s: string) returns (p: Pieces)
    requires Parses(s)
    ensures WellFormed(p) && Written(p) == s && Meaning(p) == Parse(s).value
  {
    var lead, trail := Trimmed(s);
    var text := TrimSpace(s);
    TrimSpaceEnds(s);
    hide TrimSpace, Scan, Value, White, Dotted, IsSpace, IsDigit, AllDigits;
    var mark := MarkOf(text);
    var g := Scan(StripV(text));
    ScanSplits(StripV(text));
    p := Pieces(lead, mark, g.major, g.minor, g.patch, g.rest, trail);
    assert Numbers(p) == StripV(text);
    hide StripV;
    GroupsMean(p);
    assert Parse(s) == FromGroups(g);
    assert Core(p) == text;
    hide Core, Meaning, Parse, FromGroups;
    RestEnds(p, text);
  }

  lemma GroupsMean(p: Pieces)
    requires p.minor == "" ==> p.patch == ""
    ensures
      var v := FromGroups(Groups(p.major, p.minor, p.patch, p.rest));
      v.Some? ==> p.major != "" && '\n' !in p.rest && Meaning(p) == v.value
  {
    hide Value;
  }

  lemma MarkOf(text: string) returns (mark: string)
    ensures mark in {"", "v", "V"} && text == mark + StripV(text)
  {
    mark := if StripV(text) == text then "" else [text[0]];
  }

  lemma RestEnds(p: Pieces, text: string)
    requires text == Core(p) && (text != "" ==> !IsSpace(text[|text| - 1]))
    ensures p.rest != "" ==> !White([p.rest[|p.rest| - 1]])
  {
    hide Dotted;
    if p.rest != "" {
      assert p.rest[|p.rest| - 1] == text[|text| - 1];
      WhiteIsSpace(p.rest[|p.rest| - 1]);
    }
  }

  lemma {:induction false} Trimmed(s: string) returns (lead: string, trail: string)
    ensures White(lead) && White(trail) && s == lead + (TrimSpace(s) + trail)
  {
    if s != "" && IsSpace(s[0]) {
      var rest;
      rest, trail := Trimmed(s[1..]);
      lead := [s[0]] + rest;
    } else {
      lead := "";
      trail := TrimmedRight(s);
    }
  }

  lemma {:induction false} TrimmedRight(s: string) returns (trail: string)
    ensures White(trail) && s == TrimRight(s) + trail
  {
    if s != "" && IsSpace(s[|s| - 1]) {
      var rest := TrimmedRight(s[..|s| - 1]);
      trail := rest + [s[|s| - 1]];
    } else {
      trail := "";
    }
  }

  lemma {:induction false} SpanIsLongest(s: string)
    ensures AllDigits(DigitSpan(s).0) && s == DigitSpan(s).0 + DigitSpan(s).1
    ensures DigitSpan(s).1 != "" ==> !IsDigit(DigitSpan(s).1[0])
  {
    if s != "" && IsDigit(s[0]) {
      SpanIsLongest(s[1..]);
    }
  }

  lemma DotSplits(s: string)
    requires s == "" || !IsDigit(s[0])
    ensures
      var (number, rest) := DotNumber(s);
      && s == Dotted(number) + rest && AllDigits(number) && (rest != "" ==> !IsDigit(rest[0]))
      && (number == "" ==> rest == s && (|s| > 1 && s[0] == '.' ==> !IsDigit(s[1])))
  {
    hide DigitSpan, IsDigit;
    if s != "" && s[0] == '.' {
      SpanIsLongest(s[1..]);
      assert s == "." + s[1..];
      SpanStarts(s[1..]);
    }
  }

  lemma SpanStarts(s: string)
    ensures DigitSpan(s).0 == "" <==> s == "" || !IsDigit(s[0])
  {
  }

  lemma ScanSplits(s: string)
    ensures
      var g := Scan(s);
      && s == g.major + (Dotted(g.minor) + (Dotted(g.patch) + g.rest))
      && AllDigits(g.major) && AllDigits(g.minor) && AllDigits(g.patch) && (g.minor == "" ==> g.patch == "")
      && (g.rest != "" && g.major != "" ==> !IsDigit(g.rest[0]))
      && (g.patch == "" && |g.rest| > 1 && g.rest[0] == '.' && g.major != "" ==> !IsDigit(g.rest[1]))
  {
    SpanIsLongest(s);
    var afterMajor := DigitSpan(s).1;
    DotSplits(afterMajor);
    DotSplits(DotNumber(afterMajor).1);
  }

  // ---------------------------------------------------------------- what printing keeps

  /** Normalizing keeps the numbers and how many there were, and nothing else; other text stays. */
  lemma NormalizeExactly(s: string)
    ensures Parse(Normalize(s)) == if Parses(s) then Some(Parse(s).value.(suffix := "")) else None
    ensures !Parses(s) ==> Normalize(s) == s
  {
    if Parses(s) {
      ParsedIsFromText(s);
      var v := Parse(s).value;
      ParseReads(v, "");
      assert CoreText(v) + "" == CoreText(v);
    }
  }

  /** What is shown: the numbers that the text gave, with dots, and a prerelease's suffix after a dash. */
  lemma DisplayExactly(v: V)
    requires 1 <= v.parts <= 3
    ensures
      Display(v) ==
      Itoa(v.major) + Dotted(if v.parts >= 2 then Itoa(v.minor) else "")
      + Dotted(if v.parts == 3 then Itoa(v.patch) else "")
      + if v.suffix != "" && PrereleaseSuffix(v.suffix) then "-" + v.suffix else ""
  {
    AtoiItoa(v.minor);
    AtoiItoa(v.patch);
    hide Itoa, PrereleaseSuffix;
    var numbers :=
      Itoa(v.major) + Dotted(if v.parts >= 2 then Itoa(v.minor) else "") + Dotted(if v.parts == 3 then Itoa(v.patch) else "");
    assert numbers == CoreText(v);
    hide CoreText, Dotted;
    assert numbers + "" == numbers;
  }

  /** Printing adds nothing: a number is printed without leading zeros. */
  lemma {:induction false} PrintedShort(n: nat)
    ensures |Itoa(n)| > 1 ==> Itoa(n)[0] != '0'
    ensures n > 0 ==> Itoa(n) != "" && Itoa(n)[0] != '0'
  {
    if n >= 10 {
      PrintedShort(n / 10);
      assert Itoa(n)[0] == Itoa(n / 10)[0];
    }
  }
}
