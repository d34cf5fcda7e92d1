/** Which advisories hit, in the words of the feed, the module and the token
    (internal/advisory/advisory.go). */
module AdvisoryMeaning {
  import opened Seqs
  import opened Inventory
  import opened Decimal
  import opened Text
  import opened Advisory
  import P = Policy
  import CbomLinks

  // ---- versions ----

  function Component(v: seq<nat>, i: nat): nat { if i < |v| then v[i] else 0 }

  ghost predicate LowerAt(a: seq<nat>, b: seq<nat>, i: nat) {
    Component(a, i) < Component(b, i) && forall j: nat :: j < i ==> Component(a, j) == Component(b, j)
  }

  /** a is lower than b at the first component where they differ. */
  ghost predicate Lower(a: seq<nat>, b: seq<nat>) { exists i: nat :: LowerAt(a, b, i) }

  lemma LowerMeaning(a: seq<nat>, b: seq<nat>)
    ensures Compare(a, b) < 0 <==> Lower(a, b)
  {
    CompareFromMeaning(a, b, 0);
    CompareMeaning(a, b);
    forall v: seq<nat>, i: nat ensures Component(v, i) == At(v, i) {
    }
    if Less(a, b) {
      var i: nat :| FirstLess(a, b, i);
      assert LowerAt(a, b, i);
    }
    if Lower(a, b) {
      var i: nat :| LowerAt(a, b, i);
      assert FirstLess(a, b, i);
    }
  }

  /** The version is below the fixed one and not below the introducing one, as
      far as all of them have numbers. */
  ghost predicate Affected(version: string, introducedIn: string, fixedIn: string) {
    && Parse(version) != [] && Parse(fixedIn) != [] && Lower(Parse(version), Parse(fixedIn))
    && (introducedIn != "" ==> Parse(introducedIn) != [] && !Lower(Parse(version), Parse(introducedIn)))
  }

  lemma AffectedMeaning(version: string, introducedIn: string, fixedIn: string)
    ensures InRange(version, introducedIn, fixedIn) <==> Affected(version, introducedIn, fixedIn)
  {
    hide Parse, Compare;
    LowerMeaning(Parse(version), Parse(fixedIn));
    LowerMeaning(Parse(version), Parse(introducedIn));
  }

  /** A vendor's version string. */
  lemma VendorVersion()
    ensures Parse("FW 6.24.7-3") == [6, 24, 7]
  {
    hide Parse, Fitting;
    ParseReadsBack("FW ", [6, 24, 7], "-3");
    FittingIsAll([6, 24, 7]);
    assert Digits(24) == "24" && Digits(6) == "6" && Digits(7) == "7";
    assert [6, 24, 7][1..] == [24, 7] && [24, 7][1..] == [7];
    assert Dotted([7]) == "7";
    assert Dotted([24, 7]) == "24.7";
    assert Dotted([6, 24, 7]) == "6.24.7";
    assert "FW " + "6.24.7" + "-3" == "FW 6.24.7-3";
  }

  // ---- names ----

  function Fold(c: char): int { if 'A' <= c <= 'Z' then c as int + 32 else c as int }

  predicate FoundAt(haystack: string, needle: string, i: nat) {
    i + |needle| <= |haystack| && forall k :: 0 <= k < |needle| ==> Fold(haystack[i + k]) == Fold(needle[k])
  }

  lemma FoldMeaning(haystack: string, needle: string)
    ensures ContainsFold(haystack, needle) <==> exists i: nat :: FoundAt(haystack, needle, i)
  {
    var h, n := ToLower(haystack), ToLower(needle);
    CbomLinks.ContainsMeaning(h, n);
    forall c ensures LowerCode(c) == Fold(c) {
    }
    if i: nat :| i <= |h| && n <= h[i..] {
      forall k | 0 <= k < |needle| ensures Fold(haystack[i + k]) == Fold(needle[k]) { assert n[k] == h[i..][k]; }
      assert FoundAt(haystack, needle, i);
    }
    if i: nat :| FoundAt(haystack, needle, i) {
      forall k | 0 <= k < |n| ensures n[k] == h[i..][k] {
        assert Fold(haystack[i + k]) == Fold(needle[k]);
        SameFold(haystack[i + k], needle[k]);
      }
      assert n == h[i..][..|n|];
    }
  }

  function LowerCode(c: char): int { Text.Lower(c) as int }

  lemma SameFold(c: char, d: char)
    requires Fold(c) == Fold(d)
    ensures Text.Lower(c) == Text.Lower(d)
  {
  }

  // ---- findings ----

  /** The advisory is about this component and hits it: finding f. */
  ghost predicate Hits(a: Advisory, component: string, version: string, manufacturer: string, model: string, f: P.Finding) {
    && a.component == component
    && (a.manufacturer == "" || exists i: nat :: FoundAt(manufacturer, a.manufacturer, i))
    && (a.model == "" || exists i: nat :: FoundAt(model, a.model, i))
    && Affected(version, a.introducedIn, a.fixedIn)
    && f == P.Finding(a.id, a.title, a.severity, TrimSpace(component + " " + manufacturer + " " + model) + " " + version)
  }

  ghost predicate HitsSystem(a: Advisory, m: ModuleInfo, tok: Option<TokenInfo>, f: P.Finding) {
    || (tok.Some? && Hits(a, "firmware", tok.value.firmware, tok.value.manufacturer, tok.value.model, f))
    || Hits(a, "library", m.libraryVersion, m.manufacturer, m.description, f)
  }

  lemma HitMeaning(a: Advisory, m: ModuleInfo, tok: Option<TokenInfo>, f: P.Finding)
    ensures Applies(a, m, tok) && FindingFor(m, tok)(a) == f <==> HitsSystem(a, m, tok, f)
  {
    hide InRange, Affected, ContainsFold, TrimSpace;
    match SubjectOf(a, m, tok)
    case None =>
    case Some(s) =>
      AffectedMeaning(s.version, a.introducedIn, a.fixedIn);
      FoldMeaning(s.manufacturer, a.manufacturer);
      FoldMeaning(s.model, a.model);
  }

  /** The findings are those of the advisories that hit the library, or the
      token's firmware if there is a token. */
  lemma FindingsMeaning(feed: seq<Advisory>, m: ModuleInfo, tok: Option<TokenInfo>, f: P.Finding)
    ensures f in Map(Filter(feed, Affecting(m, tok)), FindingFor(m, tok)) <==> exists a :: a in feed && HitsSystem(a, m, tok, f)
  {
    hide HitsSystem, Applies;
    FilterMembers(feed, Affecting(m, tok));
    MapMembers(Filter(feed, Affecting(m, tok)), FindingFor(m, tok), f);
    if a :| a in Filter(feed, Affecting(m, tok)) && FindingFor(m, tok)(a) == f { HitMeaning(a, m, tok, f); }
    if a :| a in feed && HitsSystem(a, m, tok, f) { HitMeaning(a, m, tok, f); }
  }

  // ---- trimming ----

  lemma {:induction false} LeftTrimmed(s: string) returns (a: string)
    ensures s == a + TrimLeft(s) && Blank(a) && (TrimLeft(s) != "" ==> !IsSpace(TrimLeft(s)[0]))
  {
    if s != "" && IsSpace(s[0]) {
      var rest := LeftTrimmed(s[1..]);
      a := [s[0]] + rest;
      assert s == [s[0]] + s[1..];
    } else {
      a := "";
    }
  }

  lemma {:induction false} RightTrimmed(s: string) returns (b: string)
    ensures s == TrimRight(s) + b && Blank(b) && (TrimRight(s) != "" ==> !IsSpace(TrimRight(s)[|TrimRight(s)| - 1]))
  {
    if s != "" && IsSpace(s[|s| - 1]) {
      var rest := RightTrimmed(s[..|s| - 1]);
      b := rest + [s[|s| - 1]];
      assert s == s[..|s| - 1] + [s[|s| - 1]];
    } else {
      b := "";
    }
  }

  ghost predicate TrimsTo(s: string, t: string) {
    exists a, b :: s == a + t + b && Blank(a) && Blank(b)
  }

  /** Trimming takes white space off both ends, and all of it; blanks, tabs and
      line ends are white space, visible ASCII is not. */
  lemma TrimMeaning(s: string)
    ensures TrimsTo(s, TrimSpace(s))
    ensures TrimSpace(s) != "" ==> !IsSpace(TrimSpace(s)[0]) && !IsSpace(TrimSpace(s)[|TrimSpace(s)| - 1])
    ensures IsSpace(' ') && IsSpace('\t') && IsSpace('\n') && IsSpace('\r') && forall c :: '!' <= c <= '~' ==> !IsSpace(c)
  {
    hide TrimLeft, TrimRight;
    var a := LeftTrimmed(s);
    var b := RightTrimmed(TrimLeft(s));
    assert s == a + TrimSpace(s) + b;
  }
}
