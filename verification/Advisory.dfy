/** Version advisories (internal/advisory/advisory.go): dotted versions with
    vendor prefixes and suffixes, their order, and the affected range. */
module Advisory {
  import opened Seqs
  import opened Inventory
  import opened Decimal
  import opened Text
  import P = Policy

  const MAX_INT := 0x7FFF_FFFF_FFFF_FFFF

  // ---- parsing ----

  predicate VersionChar(c: char) { c == '.' || IsDigit(c) }

  /** The position of the first digit, or the length. */
  function FirstDigit(s: string): (n: nat)
    ensures n <= |s| && (forall i :: 0 <= i < n ==> !IsDigit(s[i])) && (n < |s| ==> IsDigit(s[n]))
  {
    if s == "" || IsDigit(s[0]) then 0 else 1 + FirstDigit(s[1..])
  }

  /** How far digits and dots reach. */
  function Span(s: string): (n: nat)
    ensures n <= |s| && (forall i :: 0 <= i < n ==> VersionChar(s[i])) && (n < |s| ==> !VersionChar(s[n]))
  {
    if s == "" || !VersionChar(s[0]) then 0 else 1 + Span(s[1..])
  }

  function TrimDotsLeft(s: string): string { if s != "" && s[0] == '.' then TrimDotsLeft(s[1..]) else s }

  function TrimDotsRight(s: string): string { if s != "" && s[|s| - 1] == '.' then TrimDotsRight(s[..|s| - 1]) else s }

  function TrimDots(s: string): string { TrimDotsRight(TrimDotsLeft(s)) }

  /** The pieces between dots, at least one. */
  function SplitDots(s: string): (parts: seq<string>)
    ensures parts != []
  {
    if s == "" then [""]
    else
      var rest := SplitDots(s[1..]);
      if s[0] == '.' then [""] + rest else [[s[0]] + rest[0]] + rest[1..]
  }

  /** The numbers of the non-empty pieces, up to the first one that does not fit
      an int. */
  function Numbers(parts: seq<string>): seq<nat>
    requires forall p :: p in parts ==> AllDigits(p)
  {
    if parts == [] then []
    else if parts[0] == "" then Numbers(parts[1..])
    else if Value(parts[0]) > MAX_INT then []
    else [Value(parts[0])] + Numbers(parts[1..])
  }

  predicate AllVersionChars(s: string) { forall i :: 0 <= i < |s| ==> VersionChar(s[i]) }

  lemma {:induction false} PiecesAreDigits(s: string)
    requires AllVersionChars(s)
    ensures forall p :: p in SplitDots(s) ==> AllDigits(p)
  {
    if s != "" {
      PiecesAreDigits(s[1..]);
      var rest := SplitDots(s[1..]);
      assert AllDigits(rest[0]) && forall p :: p in rest[1..] ==> p in rest;
    }
  }

  lemma {:induction false} TrimmedChars(s: string)
    requires AllVersionChars(s)
    ensures AllVersionChars(TrimDots(s))
  {
    TrimmedLeftChars(s);
    TrimmedRightChars(TrimDotsLeft(s));
  }

  lemma {:induction false} TrimmedLeftChars(s: string)
    requires AllVersionChars(s)
    ensures AllVersionChars(TrimDotsLeft(s))
  {
    if s != "" && s[0] == '.' { TrimmedLeftChars(s[1..]); }
  }

  lemma {:induction false} TrimmedRightChars(s: string)
    requires AllVersionChars(s)
    ensures AllVersionChars(TrimDotsRight(s))
  {
    if s != "" && s[|s| - 1] == '.' { TrimmedRightChars(s[..|s| - 1]); }
  }

  /** The version part of a string: from the first digit, as far as digits and
      dots reach, without outer dots. */
  function VersionPart(s: string): (v: string)
    ensures AllVersionChars(v)
  {
    var t := s[FirstDigit(s)..];
    TrimmedChars(t[..Span(t)]);
    TrimDots(t[..Span(t)])
  }

  function Parse(s: string): seq<nat> {
    if FirstDigit(s) == |s| then []
    else
      PiecesAreDigits(VersionPart(s));
      Numbers(SplitDots(VersionPart(s)))
  }

  method IndexDigit(s: string) returns (start: nat)
    ensures start == FirstDigit(s)
  {
    start := 0;
    while start < |s| && !IsDigit(s[start])
      invariant start <= |s| && FirstDigit(s) == start + FirstDigit(s[start..])
    {
      start := start + 1;
    }
  }

  method ParseVersion(s: string) returns (out: seq<nat>)
    ensures out == Parse(s)
  {
    var start := IndexDigit(s);
    if start == |s| { return []; }
    var end := start;
    while end < |s| && (s[end] == '.' || IsDigit(s[end]))
      invariant start <= end <= |s| && Span(s[start..]) == end - start + Span(s[end..])
    {
      end := end + 1;
    }
    assert s[start..][..Span(s[start..])] == s[start..end];
    var parts := SplitDots(TrimDots(s[start..end]));
    PiecesAreDigits(VersionPart(s));
    out := ParseNumbers(parts);
  }

  lemma NumbersStep(parts: seq<string>, i: nat)
    requires i < |parts| && forall p :: p in parts ==> AllDigits(p)
    ensures Numbers(parts[i..])
         == if parts[i] == "" then Numbers(parts[i + 1..])
            else if Value(parts[i]) > MAX_INT then []
            else [Value(parts[i])] + Numbers(parts[i + 1..])
  {
    assert parts[i..][1..] == parts[i + 1..];
  }

  method ParseNumbers(parts: seq<string>) returns (out: seq<nat>)
    requires forall p :: p in parts ==> AllDigits(p)
    ensures out == Numbers(parts)
  {
    hide Numbers, Value;
    NoNumbers();
    out := [];
    var i := 0;
    assert parts[0..] == parts;
    while i < |parts|
      invariant i <= |parts| && Numbers(parts) == out + Numbers(parts[i..])
    {
      var p := parts[i];
      NumbersStep(parts, i);
      if p != "" {
        if Value(p) > MAX_INT { break; }
        out := out + [Value(p)];
      }
      i := i + 1;
    }
    assert i == |parts| ==> parts[i..] == [];
  }

  lemma NoNumbers()
    ensures Numbers([]) == []
  {
  }

  // ---- printing and reading back ----

  function Dotted(ns: seq<nat>): string {
    if ns == [] then "" else if |ns| == 1 then Digits(ns[0]) else Digits(ns[0]) + "." + Dotted(ns[1..])
  }

  /** The components up to the first that does not fit an int. */
  function Fitting(ns: seq<nat>): seq<nat> {
    if ns == [] || ns[0] > MAX_INT then [] else [ns[0]] + Fitting(ns[1..])
  }

  predicate NoDigit(s: string) { forall i :: 0 <= i < |s| ==> !IsDigit(s[i]) }

  predicate EndsVersion(s: string) { s == "" || !VersionChar(s[0]) }

  lemma {:induction false} SkipPrefix(prefix: string, v: string)
    requires NoDigit(prefix)
    ensures FirstDigit(prefix + v) == |prefix| + FirstDigit(v)
  {
    if prefix == "" {
      assert prefix + v == v;
    } else {
      SkipPrefix(prefix[1..], v);
      assert (prefix + v)[1..] == prefix[1..] + v;
    }
  }

  lemma {:induction false} SpanOf(v: string, suffix: string)
    requires AllVersionChars(v) && EndsVersion(suffix)
    ensures Span(v + suffix) == |v|
  {
    if v == "" {
      assert v + suffix == suffix;
    } else {
      SpanOf(v[1..], suffix);
      assert (v + suffix)[1..] == v[1..] + suffix;
    }
  }

  lemma {:induction false} SplitDigits(d: string, rest: string)
    requires AllDigits(d)
    ensures SplitDots(d) == [d]
    ensures SplitDots(d + "." + rest) == [d] + SplitDots(rest)
  {
    if d == "" {
      assert d + "." + rest == "." + rest && ("." + rest)[1..] == rest;
    } else {
      SplitDigits(d[1..], rest);
      assert (d + "." + rest)[1..] == d[1..] + "." + rest;
      assert [d[0]] + d[1..] == d;
    }
  }

  lemma {:induction false} DottedShape(ns: seq<nat>)
    requires ns != []
    ensures var s := Dotted(ns);
            s != "" && AllVersionChars(s) && IsDigit(s[0]) && IsDigit(s[|s| - 1])
  {
    ValueOfDigits(ns[0]);
    if |ns| > 1 { DottedShape(ns[1..]); }
  }

  lemma {:induction false} NumbersOfDotted(ns: seq<nat>)
    requires ns != []
    ensures (forall p :: p in SplitDots(Dotted(ns)) ==> AllDigits(p)) && Numbers(SplitDots(Dotted(ns))) == Fitting(ns)
  {
    ValueOfDigits(ns[0]);
    if |ns| == 1 {
      SplitDigits(Digits(ns[0]), "");
      assert Fitting(ns[1..]) == [];
    } else {
      NumbersOfDotted(ns[1..]);
      SplitDigits(Digits(ns[0]), Dotted(ns[1..]));
    }
  }

  lemma NothingToTrim(v: string)
    requires v != "" && IsDigit(v[0]) && IsDigit(v[|v| - 1])
    ensures TrimDots(v) == v
  {
  }

  lemma VersionPartOf(prefix: string, v: string, suffix: string)
    requires NoDigit(prefix) && EndsVersion(suffix)
    requires v != "" && AllVersionChars(v) && IsDigit(v[0]) && IsDigit(v[|v| - 1])
    ensures var s := prefix + v + suffix;
            FirstDigit(s) == |prefix| < |s| && VersionPart(s) == v
  {
    hide TrimDotsLeft, TrimDotsRight;
    var s := prefix + v + suffix;
    assert s == prefix + (v + suffix);
    NothingToTrim(v);
    SkipPrefix(prefix, v + suffix);
    assert s[|prefix|..] == v + suffix;
    SpanOf(v, suffix);
    assert (v + suffix)[..|v|] == v;
  }

  /** A printed version is read back, whatever digit-free prefix comes before and
      whatever comes after, as long as that starts with neither digit nor dot;
      components from the first one too large for an int on are lost. */
  lemma ParseReadsBack(prefix: string, ns: seq<nat>, suffix: string)
    requires NoDigit(prefix) && ns != [] && EndsVersion(suffix)
    ensures Parse(prefix + Dotted(ns) + suffix) == Fitting(ns)
  {
    DottedShape(ns);
    VersionPartOf(prefix, Dotted(ns), suffix);
    NumbersOfDotted(ns);
  }

  lemma {:induction false} FittingIsAll(ns: seq<nat>)
    ensures Fitting(ns) == ns <==> forall i :: 0 <= i < |ns| ==> ns[i] <= MAX_INT
  {
    if ns != [] {
      FittingIsAll(ns[1..]);
      assert forall i :: 0 <= i < |ns| - 1 ==> ns[1..][i] == ns[i + 1];
    }
  }

  /** So the version survives exactly when every component fits an int. */
  lemma ReadsBackExactly(prefix: string, ns: seq<nat>, suffix: string)
    requires NoDigit(prefix) && ns != [] && EndsVersion(suffix)
    ensures Parse(prefix + Dotted(ns) + suffix) == ns <==> forall i :: 0 <= i < |ns| ==> ns[i] <= MAX_INT
  {
    ParseReadsBack(prefix, ns, suffix);
    FittingIsAll(ns);
  }

  /** A middle component just too large for an int: the version is cut before it. */
  lemma LargeComponentCutsVersion(prefix: string, suffix: string)
    requires NoDigit(prefix) && EndsVersion(suffix)
    ensures Parse(prefix + Dotted([7, MAX_INT + 1, 2]) + suffix) == [7]
  {
    ParseReadsBack(prefix, [7, MAX_INT + 1, 2], suffix);
    assert [7, MAX_INT + 1, 2][1..] == [MAX_INT + 1, 2];
  }

  // ---- order ----

  /** Component i, missing ones counting as zero. */
  function At(v: seq<nat>, i: nat): nat { if i < |v| then v[i] else 0 }

  ghost predicate SameUpTo(a: seq<nat>, b: seq<nat>, n: nat) { forall j: nat :: j < n ==> At(a, j) == At(b, j) }

  ghost predicate FirstLess(a: seq<nat>, b: seq<nat>, i: nat) { At(a, i) < At(b, i) && SameUpTo(a, b, i) }

  /** a comes before b: smaller at the first component where they differ. */
  ghost predicate Less(a: seq<nat>, b: seq<nat>) { exists i: nat :: FirstLess(a, b, i) }

  ghost predicate Same(a: seq<nat>, b: seq<nat>) { forall i: nat :: At(a, i) == At(b, i) }

  function CompareFrom(a: seq<nat>, b: seq<nat>, i: nat): int
    decreases |a| + |b| - i
  {
    if i >= |a| && i >= |b| then 0
    else if At(a, i) < At(b, i) then -1
    else if At(a, i) > At(b, i) then 1
    else CompareFrom(a, b, i + 1)
  }

  function Compare(a: seq<nat>, b: seq<nat>): int { CompareFrom(a, b, 0) }

  lemma {:induction false} CompareFromMeaning(a: seq<nat>, b: seq<nat>, i: nat)
    requires SameUpTo(a, b, i)
    ensures var c := CompareFrom(a, b, i);
            (c == -1 && Less(a, b)) || (c == 0 && Same(a, b)) || (c == 1 && Less(b, a))
    decreases |a| + |b| - i
  {
    if i >= |a| && i >= |b| {
      assert forall j: nat :: j >= i ==> At(a, j) == 0 == At(b, j);
    } else if At(a, i) < At(b, i) {
      assert FirstLess(a, b, i);
    } else if At(a, i) > At(b, i) {
      assert FirstLess(b, a, i);
    } else {
      CompareFromMeaning(a, b, i + 1);
    }
  }

  lemma LessExcludes(a: seq<nat>, b: seq<nat>)
    requires Less(a, b)
    ensures !Same(a, b) && !Less(b, a)
  {
    var i: nat :| FirstLess(a, b, i);
    assert At(a, i) != At(b, i);
    forall j: nat ensures !FirstLess(b, a, j) {
      assert SameUpTo(b, a, j) && i < j ==> At(a, i) == At(b, i);
      assert SameUpTo(a, b, i) && j < i ==> At(a, j) == At(b, j);
    }
  }

  /** The comparison is -1, 0 or 1 for smaller, equal up to missing zeros, and
      larger at the first difference. */
  lemma CompareMeaning(a: seq<nat>, b: seq<nat>)
    ensures Compare(a, b) == -1 <==> Less(a, b)
    ensures Compare(a, b) == 0 <==> Same(a, b)
    ensures Compare(a, b) == 1 <==> Less(b, a)
  {
    CompareFromMeaning(a, b, 0);
    if Less(a, b) { LessExcludes(a, b); }
    if Less(b, a) { LessExcludes(b, a); }
  }

  /** Swapping the versions swaps the sign. */
  lemma CompareSwaps(a: seq<nat>, b: seq<nat>)
    ensures Compare(a, b) == -Compare(b, a)
  {
    CompareMeaning(a, b);
    CompareMeaning(b, a);
    if Same(a, b) { assert Same(b, a); }
    if Same(b, a) { assert Same(a, b); }
    CompareFromMeaning(a, b, 0);
    CompareFromMeaning(b, a, 0);
  }

  lemma LessThrough(a: seq<nat>, b: seq<nat>, c: seq<nat>)
    requires Less(a, b) || Same(a, b)
    requires Less(b, c) || Same(b, c)
    ensures Less(a, c) || (Same(a, b) && Same(b, c) && Same(a, c))
  {
    if Same(a, b) && Same(b, c) {
    } else if Same(a, b) {
      var j: nat :| FirstLess(b, c, j);
      assert FirstLess(a, c, j);
    } else if Same(b, c) {
      var i: nat :| FirstLess(a, b, i);
      assert FirstLess(a, c, i);
    } else {
      var i: nat :| FirstLess(a, b, i);
      var j: nat :| FirstLess(b, c, j);
      assert FirstLess(a, c, if i < j then i else j);
    }
  }

  /** The order is transitive, strictly so if either step is strict. */
  lemma CompareTransitive(a: seq<nat>, b: seq<nat>, c: seq<nat>)
    requires Compare(a, b) <= 0 && Compare(b, c) <= 0
    ensures Compare(a, c) <= 0
    ensures Compare(a, c) == 0 <==> Compare(a, b) == 0 && Compare(b, c) == 0
  {
    CompareFromMeaning(a, b, 0);
    CompareFromMeaning(b, c, 0);
    LessThrough(a, b, c);
    CompareMeaning(a, b);
    CompareMeaning(b, c);
    CompareMeaning(a, c);
    if Less(a, c) { LessExcludes(a, c); }
  }

  function DropZeros(v: seq<nat>): seq<nat> {
    if v != [] && v[|v| - 1] == 0 then DropZeros(v[..|v| - 1]) else v
  }

  lemma {:induction false} DropZerosSame(v: seq<nat>)
    ensures Same(v, DropZeros(v)) && (DropZeros(v) != [] ==> DropZeros(v)[|DropZeros(v)| - 1] != 0)
  {
    if v != [] && v[|v| - 1] == 0 {
      DropZerosSame(v[..|v| - 1]);
      assert forall i: nat :: At(v, i) == At(v[..|v| - 1], i);
    }
  }

  lemma NoTrailingZeros(a: seq<nat>, b: seq<nat>)
    requires Same(a, b)
    requires (a != [] ==> a[|a| - 1] != 0) && (b != [] ==> b[|b| - 1] != 0)
    ensures a == b
  {
    assert a != [] ==> At(a, |a| - 1) == At(b, |a| - 1);
    assert b != [] ==> At(a, |b| - 1) == At(b, |b| - 1);
    forall i | 0 <= i < |a| && i < |b| ensures a[i] == b[i] { assert At(a, i) == At(b, i); }
  }

  /** Versions compare equal exactly when they agree up to trailing zeros. */
  lemma EqualUpToZeros(a: seq<nat>, b: seq<nat>)
    ensures Compare(a, b) == 0 <==> DropZeros(a) == DropZeros(b)
  {
    var a', b' := DropZeros(a), DropZeros(b);
    DropZerosSame(a);
    DropZerosSame(b);
    CompareMeaning(a, b);
    if Same(a, b) {
      assert Same(a', b') by {
        forall i: nat ensures At(a', i) == At(b', i) { assert At(a', i) == At(a, i) == At(b, i) == At(b', i); }
      }
      NoTrailingZeros(a', b');
    }
    if a' == b' {
      forall i: nat ensures At(a, i) == At(b, i) { assert At(a, i) == At(a', i) == At(b, i); }
    }
  }

  /** None when either version has no number at all. */
  function CompareStrings(a: string, b: string): Option<int> {
    if Parse(a) == [] || Parse(b) == [] then None else Some(Compare(Parse(a), Parse(b)))
  }

  method CompareVersions(a: string, b: string) returns (cmp: int, ok: bool)
    ensures ok <==> CompareStrings(a, b).Some?
    ensures ok ==> CompareStrings(a, b) == Some(cmp)
  {
    var va := ParseVersion(a);
    var vb := ParseVersion(b);
    if |va| == 0 || |vb| == 0 { return 0, false; }
    var i := 0;
    while i < |va| || i < |vb|
      invariant Compare(va, vb) == CompareFrom(va, vb, i)
      decreases |va| + |vb| - i
    {
      var x, y := 0, 0;
      if i < |va| { x := va[i]; }
      if i < |vb| { y := vb[i]; }
      if x < y { return -1, true; }
      if x > y { return 1, true; }
      i := i + 1;
    }
    return 0, true;
  }

  // ---- advisories ----

  datatype Advisory = Advisory(
    id: string, title: string, severity: P.Severity,
    component: string, manufacturer: string, model: string, introducedIn: string, fixedIn: string)

  datatype ModuleInfo = ModuleInfo(libraryVersion: string, manufacturer: string, description: string)

  datatype Subject = Subject(version: string, manufacturer: string, model: string)

  /** What an advisory is matched against, if there is such a thing. */
  function SubjectOf(a: Advisory, m: ModuleInfo, tok: Option<TokenInfo>): Option<Subject> {
    if a.component == "firmware" then
      if tok.None? then None else Some(Subject(tok.value.firmware, tok.value.manufacturer, tok.value.model))
    else if a.component == "library" then Some(Subject(m.libraryVersion, m.manufacturer, m.description))
    else None
  }

  predicate ContainsFold(haystack: string, needle: string) { Contains(ToLower(haystack), ToLower(needle)) }

  /** Below the fixed version and, if one is given, not below the introducing
      one; comparisons that cannot be made count against. */
  predicate InRange(version: string, introducedIn: string, fixedIn: string) {
    && CompareStrings(version, fixedIn).Some? && CompareStrings(version, fixedIn).value < 0
    && (introducedIn != "" ==>
          CompareStrings(version, introducedIn).Some? && CompareStrings(version, introducedIn).value >= 0)
  }

  predicate Applies(a: Advisory, m: ModuleInfo, tok: Option<TokenInfo>) {
    match SubjectOf(a, m, tok)
    case None => false
    case Some(s) =>
      && (a.manufacturer != "" ==> ContainsFold(s.manufacturer, a.manufacturer))
      && (a.model != "" ==> ContainsFold(s.model, a.model))
      && InRange(s.version, a.introducedIn, a.fixedIn)
  }

  function Affecting(m: ModuleInfo, tok: Option<TokenInfo>): Advisory -> bool { (a: Advisory) => Applies(a, m, tok) }

  function FindingFor(m: ModuleInfo, tok: Option<TokenInfo>): Advisory -> P.Finding {
    (a: Advisory) =>
      match SubjectOf(a, m, tok)
      case None => P.Finding(a.id, a.title, a.severity, "")
      case Some(s) =>
        P.Finding(a.id, a.title, a.severity, TrimSpace(a.component + " " + s.manufacturer + " " + s.model) + " " + s.version)
  }

  method VersionAffected(version: string, introducedIn: string, fixedIn: string) returns (r: bool)
    ensures r == InRange(version, introducedIn, fixedIn)
  {
    var cmp, ok := CompareVersions(version, fixedIn);
    if !ok || cmp >= 0 { return false; }
    if introducedIn != "" {
      cmp, ok := CompareVersions(version, introducedIn);
      if !ok || cmp < 0 { return false; }
    }
    return true;
  }

  /** One finding for each advisory that applies, in feed order. */
  method Evaluate(feed: seq<Advisory>, m: ModuleInfo, tok: Option<TokenInfo>) returns (out: seq<P.Finding>)
    ensures out == Map(Filter(feed, Affecting(m, tok)), FindingFor(m, tok))
  {
    hide InRange, TrimSpace, ContainsFold;
    out := [];
    for i := 0 to |feed|
      invariant out == Map(Filter(feed[..i], Affecting(m, tok)), FindingFor(m, tok))
    {
      var a := feed[i];
      assert feed[..i + 1] == feed[..i] + [a];
      FilterSnoc(feed[..i], a, Affecting(m, tok));
      MapSnoc(Filter(feed[..i], Affecting(m, tok)), a, FindingFor(m, tok));
      var version, manufacturer, model := "", "", "";
      if a.component == "firmware" {
        if tok.None? { continue; }
        version, manufacturer, model := tok.value.firmware, tok.value.manufacturer, tok.value.model;
      } else if a.component == "library" {
        version, manufacturer, model := m.libraryVersion, m.manufacturer, m.description;
      } else {
        continue;
      }
      if a.manufacturer != "" && !ContainsFold(manufacturer, a.manufacturer) { continue; }
      if a.model != "" && !ContainsFold(model, a.model) { continue; }
      var affected := VersionAffected(version, a.introducedIn, a.fixedIn);
      if !affected { continue; }
      var ref := TrimSpace(a.component + " " + manufacturer + " " + model) + " " + version;
      out := out + [P.Finding(a.id, a.title, a.severity, ref)];
    }
    assert feed[..|feed|] == feed;
  }

  /** A version between two affected ones is affected. */
  lemma RangeIsConvex(u: string, v: string, w: string, introducedIn: string, fixedIn: string)
    requires InRange(u, introducedIn, fixedIn) && InRange(w, introducedIn, fixedIn)
    requires Parse(v) != [] && Compare(Parse(u), Parse(v)) <= 0 && Compare(Parse(v), Parse(w)) <= 0
    ensures InRange(v, introducedIn, fixedIn)
  {
    CompareTransitive(Parse(v), Parse(w), Parse(fixedIn));
    if introducedIn != "" {
      CompareSwaps(Parse(u), Parse(introducedIn));
      CompareSwaps(Parse(v), Parse(introducedIn));
      CompareTransitive(Parse(introducedIn), Parse(u), Parse(v));
    }
  }

  /** Versions that compare equal get the same verdict. */
  lemma EqualVersionsAgree(u: string, v: string, introducedIn: string, fixedIn: string)
    requires CompareStrings(u, v) == Some(0)
    ensures InRange(u, introducedIn, fixedIn) <==> InRange(v, introducedIn, fixedIn)
  {
    CompareSwaps(Parse(u), Parse(v));
    if InRange(u, introducedIn, fixedIn) { RangeIsConvex(u, v, u, introducedIn, fixedIn); }
    if InRange(v, introducedIn, fixedIn) { RangeIsConvex(v, u, v, introducedIn, fixedIn); }
  }

  lemma ParsesZero()
    ensures Parse("0") == [0]
  {
    ParseReadsBack("", [0], "");
    FittingIsAll([0]);
    assert Digits(0) == [DigitChar(0)] == "0";
    assert "" + Dotted([0]) + "" == "0";
  }

  /** The bounds make a range: a fixed version above the introducing one, or
      above zero if there is none. */
  predicate MakesRange(introducedIn: string, fixedIn: string) {
    var from := if introducedIn != "" then Parse(introducedIn) else [0];
    from != [] && Parse(fixedIn) != [] && Compare(from, Parse(fixedIn)) < 0
  }

  lemma AffectedMakesRange(v: string, introducedIn: string, fixedIn: string)
    requires InRange(v, introducedIn, fixedIn)
    ensures MakesRange(introducedIn, fixedIn)
  {
    var from := if introducedIn != "" then Parse(introducedIn) else [0];
    if introducedIn != "" { CompareSwaps(Parse(v), from); } else { ZeroIsLeast(Parse(v)); }
    CompareTransitive(from, Parse(v), Parse(fixedIn));
  }

  /** An advisory can affect some version exactly when its bounds make a range,
      and then its lower bound is affected. */
  lemma RangeIsEmptyExactly(introducedIn: string, fixedIn: string)
    ensures (exists v :: InRange(v, introducedIn, fixedIn)) <==> MakesRange(introducedIn, fixedIn)
    ensures MakesRange(introducedIn, fixedIn) ==> InRange(if introducedIn != "" then introducedIn else "0", introducedIn, fixedIn)
  {
    hide Parse, Compare;
    if v :| InRange(v, introducedIn, fixedIn) { AffectedMakesRange(v, introducedIn, fixedIn); }
    ParsesZero();
    CompareSwaps(Parse(introducedIn), Parse(introducedIn));
    assert MakesRange(introducedIn, fixedIn) ==>
        InRange(if introducedIn != "" then introducedIn else "0", introducedIn, fixedIn);
  }

  lemma ZeroIsLeast(v: seq<nat>)
    ensures Compare([0], v) <= 0
  {
    CompareFromMeaning([0], v, 0);
    assert forall i: nat :: At([0], i) == 0;
  }
}
