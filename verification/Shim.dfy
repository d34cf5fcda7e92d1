/** The tracing shim's naming of searched keys (shim/shim.c): label and hex
    CKA_ID of a find template, copied into fixed C buffers. */
module Shim {
  import opened Bytes
  import opened Seqs

  const CKA_LABEL := 0x0003
  const CKA_ID := 0x0102

  const LABEL_SIZE := 256
  const KEYID_SIZE := 130

  /** An attribute's value: a null pointer, the unavailable length, or bytes. */
  datatype Value = Null | Unavailable | Bytes(bytes: seq<byte>)

  datatype Attribute = Attribute(kind: nat, value: Value)

  // ---- what the buffers should hold ----

  predicate Usable(a: Attribute) { a.value.Bytes? && a.value.bytes != [] }

  /** The last usable value of a kind; none if the template has none. */
  function LastUsable(t: seq<Attribute>, kind: nat): Option<seq<byte>> {
    if t == [] then None
    else
      var a := t[|t| - 1];
      if Usable(a) && a.kind == kind then Some(a.value.bytes) else LastUsable(t[..|t| - 1], kind)
  }

  function Template(t: Option<seq<Attribute>>): seq<Attribute> { if t.Some? then t.value else [] }

  function Prefix(b: seq<byte>, n: nat): seq<byte> { if |b| > n then b[..n] else b }

  /** The C string at the start of a buffer: everything before the first NUL. */
  function CString(s: seq<byte>): seq<byte> { if s == [] || s[0] == 0 then [] else [s[0]] + CString(s[1..]) }

  function HexDigit(n: int): byte
    requires 0 <= n < 16
  {
    if n < 10 then (48 + n) as byte else (87 + n) as byte
  }

  /** Lower-case hexadecimal, two digits for each byte. */
  function Hex(b: seq<byte>): (h: seq<byte>)
    ensures |h| == 2 * |b| && 0 !in h
  {
    if b == [] then [] else Hex(b[..|b| - 1]) + [HexDigit(b[|b| - 1] as int / 16), HexDigit(b[|b| - 1] as int % 16)]
  }

  function LabelText(t: seq<Attribute>, size: nat): seq<byte>
    requires size >= 1
  {
    match LastUsable(t, CKA_LABEL)
    case None => []
    case Some(b) => CString(Prefix(b, size - 1))
  }

  function IdText(t: seq<Attribute>, size: nat): seq<byte>
    requires size >= 1
  {
    match LastUsable(t, CKA_ID)
    case None => []
    case Some(b) => Hex(Prefix(b, (size - 1) / 2))
  }

  // ---- the program ----

  lemma {:induction false} CStringOf(s: seq<byte>, rest: seq<byte>)
    ensures CString(s + [0] + rest) == CString(s)
    ensures 0 !in s ==> CString(s) == s
  {
    if s == [] {
      assert s + [0] + rest == [0] + rest;
    } else {
      CStringOf(s[1..], rest);
      assert (s + [0] + rest)[1..] == s[1..] + [0] + rest;
    }
  }

  method WriteLabel(text: array<byte>, value: seq<byte>)
    requires text.Length >= 1
    modifies text
    ensures 0 in text[..] && CString(text[..]) == CString(Prefix(value, text.Length - 1))
  {
    var len := |value|;
    if len > text.Length - 1 { len := text.Length - 1; }
    for j := 0 to len
      invariant text[..j] == value[..j]
    {
      text[j] := value[j];
    }
    text[len] := 0;
    assert text[..] == value[..len] + [0] + text[len + 1..];
    assert value[..len] == Prefix(value, text.Length - 1);
    CStringOf(value[..len], text[len + 1..]);
    assert text[..][len] == 0;
  }

  method WriteHex(keyid: array<byte>, value: seq<byte>)
    requires keyid.Length >= 1
    modifies keyid
    ensures 0 in keyid[..] && CString(keyid[..]) == Hex(Prefix(value, (keyid.Length - 1) / 2))
  {
    hide CString;
    var len := |value|;
    if len > (keyid.Length - 1) / 2 { len := (keyid.Length - 1) / 2; }
    for j := 0 to len
      invariant keyid[..2 * j] == Hex(value[..j])
    {
      assert value[..j + 1][..j] == value[..j];
      keyid[j * 2] := HexDigit(value[j] as int / 16);
      keyid[j * 2 + 1] := HexDigit(value[j] as int % 16);
      assert keyid[..2 * (j + 1)] == keyid[..2 * j] + [keyid[j * 2], keyid[j * 2 + 1]];
    }
    keyid[len * 2] := 0;
    assert keyid[..] == Hex(value[..len]) + [0] + keyid[2 * len + 1..];
    assert value[..len] == Prefix(value, (keyid.Length - 1) / 2);
    CStringOf(Hex(value[..len]), keyid[2 * len + 1..]);
    assert keyid[..][len * 2] == 0;
  }

  lemma StartsWithNul(s: seq<byte>)
    requires s != [] && s[0] == 0
    ensures 0 in s && CString(s) == []
  {
  }

  /** Whatever the template holds, both buffers end up NUL-terminated, with the
      start of the last usable label and the hex of the start of the last usable
      CKA_ID. */
  method FindIdentity(t: Option<seq<Attribute>>, text: array<byte>, keyid: array<byte>)
    requires text != keyid && text.Length >= 1 && keyid.Length >= 1
    modifies text, keyid
    ensures 0 in text[..] && CString(text[..]) == LabelText(Template(t), text.Length)
    ensures 0 in keyid[..] && CString(keyid[..]) == IdText(Template(t), keyid.Length)
  {
    hide Hex, Prefix, CString;
    text[0] := 0;
    keyid[0] := 0;
    StartsWithNul(text[..]);
    StartsWithNul(keyid[..]);
    if t.None? { return; }
    var attrs := t.value;
    for i := 0 to |attrs|
      invariant 0 in text[..] && CString(text[..]) == LabelText(attrs[..i], text.Length)
      invariant 0 in keyid[..] && CString(keyid[..]) == IdText(attrs[..i], keyid.Length)
    {
      assert attrs[..i + 1][..i] == attrs[..i];
      var a := attrs[i];
      if a.value.Null? || a.value.Unavailable? || |a.value.bytes| == 0 { continue; }
      if a.kind == CKA_LABEL {
        WriteLabel(text, a.value.bytes);
      } else if a.kind == CKA_ID {
        WriteHex(keyid, a.value.bytes);
      }
    }
    assert attrs[..|attrs|] == attrs;
  }

  /** The label and ID a C_FindObjectsInit event carries. */
  method SearchIdentity(t: Option<seq<Attribute>>) returns (name: Option<seq<byte>>, id: Option<seq<byte>>)
    ensures name == if LabelText(Template(t), LABEL_SIZE) == [] then None else Some(LabelText(Template(t), LABEL_SIZE))
    ensures id == if IdText(Template(t), KEYID_SIZE) == [] then None else Some(IdText(Template(t), KEYID_SIZE))
  {
    var text := new byte[LABEL_SIZE];
    var keyid := new byte[KEYID_SIZE];
    FindIdentity(t, text, keyid);
    name := if text[0] != 0 then Some(CString(text[..])) else None;
    id := if keyid[0] != 0 then Some(CString(keyid[..])) else None;
  }

  // ---- what the hex means ----

  function DigitValue(c: byte): int { if c < 87 then c as int - 48 else c as int - 87 }

  function Decode(h: seq<byte>): seq<int> {
    if |h| < 2 then [] else Decode(h[..|h| - 2]) + [DigitValue(h[|h| - 2]) * 16 + DigitValue(h[|h| - 1])]
  }

  function AsInt(b: byte): int { b as int }

  lemma DigitRoundTrip(b: byte)
    ensures DigitValue(HexDigit(b as int / 16)) * 16 + DigitValue(HexDigit(b as int % 16)) == AsInt(b)
  {
  }

  lemma DecodeSnoc(h: seq<byte>, x: byte, y: byte)
    ensures Decode(h + [x, y]) == Decode(h) + [DigitValue(x) * 16 + DigitValue(y)]
  {
    assert (h + [x, y])[..|h|] == h;
  }

  /** Decoding gives the bytes back. */
  lemma {:induction false} DecodeHex(b: seq<byte>)
    ensures Decode(Hex(b)) == Map(b, AsInt)
  {
    hide HexDigit, DigitValue, AsInt, Decode;
    if b == [] {
      DecodeNothing();
    } else {
      var init, last := b[..|b| - 1], b[|b| - 1];
      DecodeHex(init);
      DecodeSnoc(Hex(init), HexDigit(last as int / 16), HexDigit(last as int % 16));
      DigitRoundTrip(last);
      assert b == init + [last];
      MapSnoc(init, last, AsInt);
    }
  }

  lemma DecodeNothing()
    ensures Decode([]) == []
  {
  }

  lemma HexInjective(a: seq<byte>, b: seq<byte>)
    ensures Hex(a) == Hex(b) <==> a == b
  {
    DecodeHex(a);
    DecodeHex(b);
    if Hex(a) == Hex(b) {
      assert |a| == |b|;
      forall i | 0 <= i < |a| ensures a[i] == b[i] {
        assert Map(a, AsInt)[i] == Map(b, AsInt)[i];
      }
    }
  }

  /** A search by a non-empty CKA_ID is reported under the inventory's hex ID of a
      key exactly when the key's CKA_ID is the one searched for, cut after 64
      bytes; so IDs up to 64 bytes are reported whole, and longer ones never. */
  lemma SearchNamesKey(t: seq<Attribute>, id: seq<byte>)
    requires LastUsable(t, CKA_ID).Some?
    ensures var searched := LastUsable(t, CKA_ID).value;
            && (IdText(t, KEYID_SIZE) == Hex(id) <==> id == Prefix(searched, 64))
            && (IdText(t, KEYID_SIZE) == Hex(searched) <==> |searched| <= 64)
            && IdText(t, KEYID_SIZE) != []
  {
    var searched := LastUsable(t, CKA_ID).value;
    LastUsableIsUsable(t, CKA_ID);
    HexInjective(Prefix(searched, 64), id);
    HexInjective(Prefix(searched, 64), searched);
  }

  lemma {:induction false} LastUsableIsUsable(t: seq<Attribute>, kind: nat)
    ensures LastUsable(t, kind).Some? ==> LastUsable(t, kind).value != []
    ensures LastUsable(t, kind).None? <==> forall i :: 0 <= i < |t| ==> !(Usable(t[i]) && t[i].kind == kind)
  {
    if t != [] { LastUsableIsUsable(t[..|t| - 1], kind); }
  }
}
