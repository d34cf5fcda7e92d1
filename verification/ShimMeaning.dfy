/** What the tracing shim copies out of a search template (shim/shim.c): the start
    of the last label and of the last ID it holds. */
module ShimMeaning {
  import opened Bytes
  import opened Seqs
  import opened Shim

  /** Attribute i is the last one of its kind that has a value. */
  predicate LastWithValue(t: seq<Attribute>, kind: nat, i: nat, b: seq<byte>) {
    && i < |t| && t[i] == Attribute(kind, Bytes(b)) && b != []
    && forall j :: i < j < |t| && t[j].kind == kind ==> t[j].value == Null || t[j].value == Unavailable || t[j].value == Bytes([])
  }

  lemma {:induction false} LastUsableMeaning(t: seq<Attribute>, kind: nat, i: nat, b: seq<byte>)
    requires LastWithValue(t, kind, i, b)
    ensures LastUsable(t, kind) == Some(b)
  {
    var n := |t| - 1;
    if i < n {
      assert forall j :: 0 <= j < n ==> t[..n][j] == t[j];
      LastUsableMeaning(t[..n], kind, i, b);
    }
  }

  lemma {:induction false} CStringMeaning(s: seq<byte>)
    ensures CString(s) <= s && 0 !in CString(s) && (|CString(s)| < |s| ==> s[|CString(s)|] == 0)
  {
    if s != [] && s[0] != 0 { CStringMeaning(s[1..]); }
  }

  /** The label traced is that of the last CKA_LABEL with a value: its bytes up to
      the first NUL, and no more than 255. */
  lemma LabelMeaning(t: seq<Attribute>, i: nat, b: seq<byte>)
    requires LastWithValue(t, 0x0003, i, b)
    ensures var r := LabelText(t, LABEL_SIZE);
            && r <= b && 0 !in r && |r| <= 255
            && (|r| == 255 || |r| == |b| || b[|r|] == 0)
  {
    LastUsableMeaning(t, 0x0003, i, b);
    CStringMeaning(Prefix(b, 255));
  }

  const HEX: string := "0123456789abcdef"

  lemma DigitMeaning(n: int)
    requires 0 <= n < 16
    ensures HexDigit(n) as int == HEX[n] as int
  {
  }

  lemma {:induction false} HexMeaning(b: seq<byte>, j: nat)
    requires j < |b|
    ensures Hex(b)[2 * j] as int == HEX[b[j] as int / 16] as int && Hex(b)[2 * j + 1] as int == HEX[b[j] as int % 16] as int
  {
    var n := |b| - 1;
    DigitMeaning(b[j] as int / 16);
    DigitMeaning(b[j] as int % 16);
    if j < n { HexMeaning(b[..n], j); }
  }

  /** The ID traced is the last CKA_ID with a value, two lower-case hexadecimal
      digits for each of its first 64 bytes. */
  lemma IdMeaning(t: seq<Attribute>, i: nat, b: seq<byte>, j: nat)
    requires LastWithValue(t, 0x0102, i, b) && j < |b| && j < 64
    ensures var h := IdText(t, KEYID_SIZE);
            && |h| == 2 * (if |b| < 64 then |b| else 64)
            && h[2 * j] as int == HEX[b[j] as int / 16] as int && h[2 * j + 1] as int == HEX[b[j] as int % 16] as int
  {
    LastUsableMeaning(t, 0x0102, i, b);
    HexMeaning(Prefix(b, 64), j);
  }

  /** Without such an attribute nothing is traced. */
  lemma NothingMeaning(t: seq<Attribute>)
    ensures (forall i, b :: !LastWithValue(t, 0x0003, i, b)) ==> LabelText(t, LABEL_SIZE) == []
    ensures (forall i, b :: !LastWithValue(t, 0x0102, i, b)) ==> IdText(t, KEYID_SIZE) == []
  {
    if LastUsable(t, CKA_LABEL).Some? { var i := LastAt(t, CKA_LABEL); }
    if LastUsable(t, CKA_ID).Some? { var i := LastAt(t, CKA_ID); }
  }

  lemma {:induction false} LastAt(t: seq<Attribute>, kind: nat) returns (i: nat)
    requires LastUsable(t, kind).Some?
    ensures LastWithValue(t, kind, i, LastUsable(t, kind).value)
  {
    i := |t| - 1;
    if !(Usable(t[i]) && t[i].kind == kind) {
      var n := i;
      i := LastAt(t[..n], kind);
      assert forall j :: 0 <= j < n ==> t[..n][j] == t[j];
    }
  }
}
