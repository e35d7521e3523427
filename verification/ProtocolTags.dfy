/** Panel-Link and Status-Link tags: how the host fills them in and what a receiver reads back. */
module ProtocolTags {
  import opened Checksum
  import opened Words

  const PL_NAME: seq<Byte> := [80, 65, 78, 69, 76, 45, 76, 73, 78, 75]       // "PANEL-LINK"
  const SL_NAME: seq<Byte> := [83, 84, 65, 84, 85, 83, 45, 76, 73, 78, 75]   // "STATUS-LINK"
  const PL_VERSION: Byte := 1
  const SL_VERSION: Byte := 2
  const PL_TAG_BYTES := 270
  const SL_TAG_BYTES := 20

  /** A C string: its bytes up to the terminator. */
  predicate CString(s: seq<Byte>) { 0 !in s }

  function Low(v: nat): Byte { v % 256 }

  function High(v: nat): Byte { v / 256 % 256 }

  // ---- The receiver ----------------------------------------------------------------------------------

  /** The bytes before the first zero. */
  function UpToNul(s: seq<Byte>): seq<Byte> {
    if s == [] || s[0] == 0 then [] else [s[0]] + UpToNul(s[1..])
  }

  datatype PanelTag = PanelTag(kind: Byte, fmt: seq<Byte>)

  datatype StatusTag = StatusTag(kind: Byte, length: nat)

  function ReadPanelTag(tag: seq<Byte>): Option<PanelTag> {
    if |tag| == PL_TAG_BYTES && Checks(tag) && tag[..10] == PL_NAME && tag[10] == PL_VERSION
    then Some(PanelTag(tag[11], UpToNul(tag[12..268])))
    else None
  }

  function ReadStatusTag(tag: seq<Byte>): Option<StatusTag> {
    if |tag| == SL_TAG_BYTES && Checks(tag) && tag[..11] == SL_NAME && tag[11] == SL_VERSION
    then Some(StatusTag(tag[12], tag[16] as int + 256 * tag[17] as int))
    else None
  }

  lemma {:induction false} UpToNulOf(s: seq<Byte>, padded: seq<Byte>)
    requires CString(s) && |s| < |padded| && padded[|s|] == 0
    requires forall i :: 0 <= i < |s| ==> padded[i] == s[i]
    ensures UpToNul(padded) == s
    decreases s
  {
    if s != [] {
      assert padded[0] == s[0] && s[0] in s;
      assert forall c :: c in s[1..] ==> c in s;
      UpToNulOf(s[1..], padded[1..]);
    }
  }

  // ---- The checksum field ----------------------------------------------------------------------------

  /** The checksum is stored in the byte order of the host. */
  method StoreChecksum(tag: array<Byte>, at: nat, sum16: nat, bigEndian: bool)
    requires at + 2 == tag.Length && sum16 < 0x1_0000
    modifies tag
    ensures tag[..at] == old(tag[..at])
    ensures tag[at] == if bigEndian then High(sum16) else Low(sum16)
    ensures tag[at + 1] == if bigEndian then Low(sum16) else High(sum16)
  {
    tag[at] := if bigEndian then High(sum16) else Low(sum16);
    tag[at + 1] := if bigEndian then Low(sum16) else High(sum16);
  }

  /** The one's-complement sum of a value and its complement, stored straight or with its bytes exchanged. */
  lemma ComplementCloses(sum: nat, stored: nat, sum16: nat)
    requires sum <= 0xffff && sum16 == 0xffff - sum
    requires stored == sum16 || stored == High(sum16) as int + 256 * Low(sum16) as int
    ensures OnesAdd(sum, stored) == 0xffff <==> stored == sum16
  {
    BytesOf(sum16);
    if sum == 0xffff {
      assert sum16 == 0 && stored == 0;
    }
  }

  /** Where a host stores the two bytes in the wire's order, or they are equal, the whole tag checks. */
  lemma ChecksumCloses(tag: seq<Byte>, n: nat, sum16: nat, bigEndian: bool)
    requires |tag| == 2 * n + 2 && sum16 == 0xffff - OnesSum(tag, n)
    requires tag[2 * n] == (if bigEndian then High(sum16) else Low(sum16))
    requires tag[2 * n + 1] == (if bigEndian then Low(sum16) else High(sum16))
    ensures Checks(tag) <==> !bigEndian || Low(sum16) == High(sum16)
  {
    OnesSumIsCanon(tag, n);
    assert |tag| / 2 == n + 1 && |tag| % 2 == 0;
    assert OnesSum(tag, n + 1) == OnesAdd(OnesSum(tag, n), Word(tag, n));
    BytesOf(sum16);
    ComplementCloses(OnesSum(tag, n), Word(tag, n), sum16);
  }

  /** A 16-bit value and the same with its bytes exchanged differ exactly if the bytes do. */
  lemma BytesOf(v: nat)
    requires v < 0x1_0000
    ensures v == Low(v) as int + 256 * High(v) as int
    ensures v == High(v) as int + 256 * Low(v) as int <==> Low(v) == High(v)
  {}

  lemma SameFields(a: seq<Byte>, b: seq<Byte>, n: nat)
    requires n <= |a| && n <= |b| && a[..n] == b[..n]
    ensures forall i :: 0 <= i < n ==> a[i] == b[i]
    ensures forall m :: 0 <= m <= n ==> a[..m] == b[..m]
  {
    forall i | 0 <= i < n ensures a[i] == b[i] { assert a[..n][i] == b[..n][i]; }
  }

  /** The last statement of pl_fill_tag and sl_fill_tag: the checksum of everything before it. */
  method Seal(tag: array<Byte>, n: nat, modulus: nat, bigEndian: bool)
    requires tag.Length == 2 * n + 2 && n <= 65537 && UnsignedLong(modulus)
    modifies tag
    ensures tag[..2 * n] == old(tag[..2 * n])
    ensures Checks(tag[..]) <==> !bigEndian || tag[2 * n] == tag[2 * n + 1]
  {
    ghost var covered := tag[..2 * n];
    var sum16 := Checksum16(tag[..2 * n], modulus);
    CorrectOnBoth(covered, modulus);
    StoreChecksum(tag, 2 * n, sum16, bigEndian);
    assert forall i :: 0 <= i < 2 * n ==> tag[..][i] == tag[..2 * n][i] == covered[i];
    WordSumPrefix(tag[..], covered, n);
    ChecksumCloses(tag[..], n, sum16, bigEndian);
  }

  // ---- Panel-Link ------------------------------------------------------------------------------------

  /** The part of fmt that strscpy keeps in a field of 256 bytes. */
  function Kept(fmt: seq<Byte>): seq<Byte> { if |fmt| <= 255 then fmt else fmt[..255] }

  /** Every byte of a Panel-Link tag before its checksum. */
  predicate PanelFields(tag: seq<Byte>, kind: Byte, fmt: seq<Byte>) {
    && |tag| == PL_TAG_BYTES
    && tag[..10] == PL_NAME && tag[10] == PL_VERSION && tag[11] == kind
    && (forall i :: 0 <= i < |Kept(fmt)| ==> tag[12 + i] == fmt[i])
    && (forall i :: 12 + |Kept(fmt)| <= i < 268 ==> tag[i] == 0)
  }

  /** pl_fill_tag; no fmt leaves the field zero.  `modulus` and `bigEndian` describe the host. */
  method FillPanelTag(tag: array<Byte>, kind: Byte, fmt: Option<seq<Byte>>, modulus: nat, bigEndian: bool)
    requires tag.Length == PL_TAG_BYTES && UnsignedLong(modulus)
    requires fmt.Some? ==> CString(fmt.value)
    modifies tag
    ensures PanelFields(tag[..], kind, if fmt.Some? then fmt.value else [])
    ensures Checks(tag[..]) <==> !bigEndian || tag[268] == tag[269]
  {
    forall i | 0 <= i < tag.Length { tag[i] := 0; }
    forall i | 0 <= i < 10 { tag[i] := PL_NAME[i]; }
    tag[10] := PL_VERSION;
    tag[11] := kind;
    if fmt.Some? {
      forall i | 0 <= i < |Kept(fmt.value)| { tag[12 + i] := fmt.value[i]; }
    }
    assert tag[..10] == PL_NAME;
    ghost var fields := tag[..];
    Seal(tag, 134, modulus, bigEndian);
    SameFields(fields, tag[..], 268);
  }

  /** A receiver reads back exactly the type and the format string, cut to 255 bytes. */
  lemma PanelTagRoundTrip(tag: seq<Byte>, kind: Byte, fmt: seq<Byte>)
    requires CString(fmt) && PanelFields(tag, kind, fmt) && Checks(tag)
    ensures ReadPanelTag(tag) == Some(PanelTag(kind, Kept(fmt)))
  {
    assert forall c :: c in Kept(fmt) ==> c in fmt;
    UpToNulOf(Kept(fmt), tag[12..268]);
  }

  // ---- Status-Link -----------------------------------------------------------------------------------

  predicate StatusFields(tag: seq<Byte>, kind: Byte, length: nat) {
    && |tag| == SL_TAG_BYTES
    && tag[..11] == SL_NAME && tag[11] == SL_VERSION && tag[12] == kind
    && tag[13] == 0 && tag[14] == 0 && tag[15] == 0
    && tag[16] == Low(length) && tag[17] == High(length)
  }

  /** sl_fill_tag. */
  method FillStatusTag(tag: array<Byte>, kind: Byte, length: nat, modulus: nat, bigEndian: bool)
    requires tag.Length == SL_TAG_BYTES && UnsignedLong(modulus) && length < 0x1_0000
    modifies tag
    ensures StatusFields(tag[..], kind, length)
    ensures Checks(tag[..]) <==> !bigEndian || tag[18] == tag[19]
  {
    forall i | 0 <= i < tag.Length { tag[i] := 0; }
    forall i | 0 <= i < 11 { tag[i] := SL_NAME[i]; }
    tag[11] := SL_VERSION;
    tag[12] := kind;
    tag[16] := Low(length);
    tag[17] := High(length);
    assert tag[..11] == SL_NAME;
    ghost var fields := tag[..];
    Seal(tag, 9, modulus, bigEndian);
    SameFields(fields, tag[..], 18);
  }

  lemma StatusTagRoundTrip(tag: seq<Byte>, kind: Byte, length: nat)
    requires length < 0x1_0000 && StatusFields(tag, kind, length) && Checks(tag)
    ensures ReadStatusTag(tag) == Some(StatusTag(kind, length))
  {
    assert length == Low(length) as int + 256 * High(length) as int;
  }
}
