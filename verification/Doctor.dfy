/** The two hand-written algorithms of internal/doctor/doctor.go: an in-place
    insertion sort of issues and a decimal conversion into a fixed buffer. */
module Doctor {
  import opened Seqs
  import opened Order
  import opened Decimal
  import opened Policy

  datatype Issue = Issue(severity: Severity, source: string, title: string)

  predicate IssueLe(a: Issue, b: Issue) { Rank(a.severity) <= Rank(b.severity) }

  lemma IssueOrder()
    ensures TotalPreorder(IssueLe)
  {
  }

  /** Inserting x in front of its rank inside a sorted prefix: the element walks
      left past everything strictly below it. */
  lemma {:induction false} InsertWalk(s: seq<Issue>, j: nat, x: Issue)
    requires j <= |s|
    requires forall k :: j <= k < |s| ==> !IssueLe(s[k], x)
    requires j == 0 || IssueLe(s[j - 1], x)
    ensures Insert(s, x, IssueLe) == s[..j] + [x] + s[j..]
  {
    if j == |s| {
      assert s[..j] == s && s[j..] == [];
    } else {
      var init, last := s[..|s| - 1], s[|s| - 1];
      assert forall k :: j <= k < |init| ==> init[k] == s[k];
      assert j > 0 ==> init[j - 1] == s[j - 1];
      InsertWalk(init, j, x);
      assert init[..j] == s[..j] && init[j..] + [last] == s[j..];
    }
  }

  lemma SwapSlides(s: seq<Issue>, j: nat, x: Issue, rest: seq<Issue>)
    requires 0 < j <= |s|
    ensures (s[..j] + [x] + s[j..] + rest)[j := s[j - 1]][j - 1 := x] == s[..j - 1] + [x] + s[j - 1..] + rest
  {
  }

  /** The inner loop: walks issue i left to its place in the sorted prefix. */
  method WalkLeft(issues: array<Issue>, i: nat, ghost sorted: seq<Issue>, ghost x: Issue, ghost rest: seq<Issue>)
    requires i == |sorted| && issues[..] == sorted + [x] + rest
    modifies issues
    ensures issues[..] == Insert(sorted, x, IssueLe) + rest
  {
    hide Insert;
    var j := i;
    while j > 0 && Rank(issues[j].severity) < Rank(issues[j - 1].severity)
      invariant 0 <= j <= i
      invariant issues[..] == sorted[..j] + [x] + sorted[j..] + rest
      invariant forall k :: j <= k < i ==> !IssueLe(sorted[k], x)
    {
      ghost var was := issues[..];
      assert was[j] == x && was[j - 1] == sorted[j - 1];
      issues[j], issues[j - 1] := issues[j - 1], issues[j];
      assert issues[..] == was[j := was[j - 1]][j - 1 := was[j]];
      SwapSlides(sorted, j, x, rest);
      j := j - 1;
    }
    assert j > 0 ==> issues[..][j] == x && issues[..][j - 1] == sorted[j - 1];
    InsertWalk(sorted, j, x);
  }

  lemma NothingToSort()
    ensures Sort([], IssueLe) == []
  {
  }

  lemma SortOne(x: Issue)
    ensures Sort([x], IssueLe) == [x]
  {
    assert [x][..0] == [];
  }

  lemma SortNext(s: seq<Issue>, i: nat)
    requires i < |s|
    ensures Sort(s[..i + 1], IssueLe) == Insert(Sort(s[..i], IssueLe), s[i], IssueLe)
  {
    assert s[..i + 1][..i] == s[..i];
  }

  /** The insertion loop computes the stable severity sort, in place. */
  method SortIssues(issues: array<Issue>)
    modifies issues
    ensures issues[..] == Sort(old(issues[..]), IssueLe)
  {
    hide Sort, Insert;
    ghost var was := issues[..];
    if issues.Length == 0 { NothingToSort(); return; }
    var i := 1;
    SortOne(was[0]);
    assert was[..1] == [was[0]];
    while i < issues.Length
      invariant 1 <= i <= issues.Length == |was|
      invariant issues[..] == Sort(was[..i], IssueLe) + was[i..]
    {
      assert was[i..] == [was[i]] + was[i + 1..];
      SortPermutes(was[..i], IssueLe);
      WalkLeft(issues, i, Sort(was[..i], IssueLe), was[i], was[i + 1..]);
      SortNext(was, i);
      i := i + 1;
    }
    assert was[..i] == was && was[i..] == [];
  }

  /** What the sorted issues are: the same issues, most severe first, issues of
      one severity in their original order. */
  lemma SortedIssues(issues: seq<Issue>, y: Issue)
    ensures multiset(Sort(issues, IssueLe)) == multiset(issues)
    ensures Sorted(Sort(issues, IssueLe), IssueLe)
    ensures Filter(Sort(issues, IssueLe), TiedTo(y, IssueLe)) == Filter(issues, TiedTo(y, IssueLe))
  {
    IssueOrder();
    SortPermutes(issues, IssueLe);
    SortSorts(issues, IssueLe);
    SortStable(issues, IssueLe, y);
  }

  // ---- itoa ----

  const MIN_INT := -0x8000_0000_0000_0000
  const MAX_INT := 0x7FFF_FFFF_FFFF_FFFF

  /** Negation in 64-bit two's complement: the minimum is its own negative. */
  function Negate(n: int): int
    requires MIN_INT <= n <= MAX_INT
  {
    if n == MIN_INT then MIN_INT else -n
  }

  function Numeral(n: int): string { if n < 0 then "-" + Digits(-n) else Digits(n) }

  function Pow10(k: nat): nat { if k == 0 then 1 else 10 * Pow10(k - 1) }

  lemma {:induction false} DigitsFit(n: nat, k: nat)
    requires k >= 1 && n < Pow10(k)
    ensures |Digits(n)| <= k
  {
    if n >= 10 {
      assert Pow10(1) == 10 && k != 1;
      DigitsFit(n / 10, k - 1);
    }
  }

  lemma Pow10Nineteen()
    ensures Pow10(19) == 10_000_000_000_000_000_000
  {
    assert Pow10(4) == 10000;
    assert Pow10(8) == 10000_0000;
    assert Pow10(12) == 10000_0000_0000;
    assert Pow10(16) == 10000_0000_0000_0000;
  }

  /** The digit loop: fills b from the end and says where the digits start. */
  method WriteDigits(b: array<char>, n: int) returns (i: nat)
    requires b.Length == 20 && (n > 0 ==> |Digits(n)| <= 19)
    modifies b
    ensures if n > 0 then 1 <= i <= 20 && b[i..] == Digits(n) else i == 20
  {
    i := b.Length;
    if n <= 0 { return; }
    var m := n;
    while m > 0
      invariant 0 <= m && 1 <= i <= 20
      invariant (if m == 0 then "" else Digits(m)) + b[i..] == Digits(n)
    {
      i := i - 1;
      b[i] := DigitChar(m % 10);
      m := m / 10;
    }
  }

  /** itoa renders every int correctly in its twenty bytes, except the minimum,
      whose negation stays negative and which comes out as a bare sign. */
  method Itoa(n: int) returns (s: string)
    requires MIN_INT <= n <= MAX_INT
    ensures s == Numeral(n) <==> n != MIN_INT
    ensures n == MIN_INT ==> s == "-"
  {
    hide Digits, Pow10;
    if n == 0 { ZeroDigit(); return "0"; }
    var neg := n < 0;
    var m := if neg then Negate(n) else n;
    if m > 0 {
      Pow10Nineteen();
      DigitsFit(m, 19);
    }
    var b := new char[20];
    var i := WriteDigits(b, m);
    if neg {
      ghost var digits := b[i..];
      i := i - 1;
      b[i] := '-';
      assert b[i..] == "-" + digits by { assert b[i + 1..] == digits; }
    }
    s := b[i..];
    ValueOfDigits(if n < 0 then -n else n);
  }

  lemma ZeroDigit()
    ensures Digits(0) == "0"
  {
  }
}
