/** The text formatting of the samba-tool dns command: booleans, enumerated
    constants, flag bitmaps and the DNS_ADDR_ARRAY address lists that the
    server reports. Constants of the dnsp and dnsserver bindings are inputs
    (a name paired with its value), so nothing depends on their numbering. */
module DnsFormat {

  import opened Wrappers
  import opened Bytes
  import opened Strings

  /** 'UNKNOWN (0x%x)' % value, with Python's sign for negative values. */
  function UnknownText(value: int): (s: string)
    ensures |s| >= 13 && s[..11] == "UNKNOWN (0x" && s[|s| - 1] == ')'
    ensures (s[11] == '-') <==> value < 0
  {
    "UNKNOWN (0x" + IntDigits(value, 16) + ")"
  }

  /** The hexadecimal between "UNKNOWN (0x" and the closing parenthesis
      reads back as the value: its magnitude, after a '-' when negative. */
  lemma UnknownTextReadsBack(value: int)
    ensures value >= 0 ==> ReadNat(UnknownText(value)[11..], 16) == Some((value, ")"))
    ensures value < 0 ==> ReadNat(UnknownText(value)[12..], 16) == Some((-value, ")"))
  {
    var pre := "UNKNOWN (0x";
    assert !IsDigit(')', 16);
    if value >= 0 {
      var t := NatDigits(value, 16) + ")";
      assert UnknownText(value) == pre + t;
      assert UnknownText(value)[|pre|..] == t;
      ReadNatDigits(value, ")", 16);
    } else {
      var t := NatDigits(-value, 16) + ")";
      assert UnknownText(value) == (pre + "-") + t;
      assert UnknownText(value)[|pre| + 1..] == t;
      ReadNatDigits(-value, ")", 16);
    }
  }

  /** Two unknown values render alike only if they are equal. */
  lemma UnknownTextInjective(a: int, b: int)
    requires UnknownText(a) == UnknownText(b)
    ensures a == b
  {
    var pre := "UNKNOWN (0x";
    var da, db := IntDigits(a, 16), IntDigits(b, 16);
    assert |da| == |db|;
    assert da == UnknownText(a)[|pre|..|pre| + |da|];
    assert db == UnknownText(b)[|pre|..|pre| + |db|];
    IntDigitsInjective(a, b, 16);
  }

  /** bool_string. */
  function BoolString(flag: int): (s: string)
    ensures flag == 0 ==> s == "FALSE"
    ensures flag == 1 ==> s == "TRUE"
    ensures flag != 0 && flag != 1 ==> s == UnknownText(flag)
  {
    if flag == 0 then "FALSE"
    else if flag == 1 then "TRUE"
    else UnknownText(flag)
  }

  /** bool_string loses nothing: distinct flags give distinct text. */
  lemma BoolStringInjective(a: int, b: int)
    requires BoolString(a) == BoolString(b)
    ensures a == b
  {
    if a != 0 && a != 1 {
      assert BoolString(a)[0] == 'U';
    }
    if b != 0 && b != 1 {
      assert BoolString(b)[0] == 'U';
    }
    if a != 0 && a != 1 && b != 0 && b != 1 {
      UnknownTextInjective(a, b);
    }
  }

  /** The position of the first definition whose constant equals value. */
  function FirstMatch(defs: seq<(string, int)>, value: int): (r: Option<nat>)
    ensures r.Some? ==> r.value < |defs| && defs[r.value].1 == value &&
                        forall j :: 0 <= j < r.value ==> defs[j].1 != value
    ensures r.None? ==> forall j :: 0 <= j < |defs| ==> defs[j].1 != value
    decreases |defs|
  {
    if defs == [] then None
    else if defs[0].1 == value then Some(0)
    else
      match FirstMatch(defs[1..], value)
      case None => None
      case Some(i) => Some(i + 1)
  }

  /** What enum_string returns: the name of the first matching definition,
      or the UNKNOWN text when none matches (or the name is empty, which
      Python also treats as false). */
  function EnumText(defs: seq<(string, int)>, value: int): string
  {
    match FirstMatch(defs, value)
    case Some(i) => if defs[i].0 != "" then defs[i].0 else UnknownText(value)
    case None => UnknownText(value)
  }

  /** enum_string: scans the definitions and stops at the first match. */
  method EnumString(defs: seq<(string, int)>, value: int) returns (ret: string)
    ensures ret == EnumText(defs, value)
  {
    var found: Option<string> := None;
    var i := 0;
    while i < |defs|
      invariant 0 <= i <= |defs|
      invariant forall j :: 0 <= j < i ==> defs[j].1 != value
      invariant found == None
    {
      if value == defs[i].1 {
        found := Some(defs[i].0);
        FirstMatchIs(defs, value, i);
        break;
      }
      i := i + 1;
    }
    if found.None? || found.value == "" {
      ret := UnknownText(value);
    } else {
      ret := found.value;
    }
    if i == |defs| {
      assert FirstMatch(defs, value) == None;
    }
  }

  /** FirstMatch is determined by its contract. */
  lemma {:induction false} FirstMatchIs(defs: seq<(string, int)>, value: int, i: nat)
    requires i < |defs| && defs[i].1 == value
    requires forall j :: 0 <= j < i ==> defs[j].1 != value
    ensures FirstMatch(defs, value) == Some(i)
    decreases i
  {
    if i > 0 {
      assert defs[0].1 != value;
      assert forall j :: 0 <= j < i - 1 ==> defs[1..][j] == defs[j + 1];
      FirstMatchIs(defs[1..], value, i - 1);
    }
  }

  /** With distinct constants and non-empty names, every listed constant
      prints as its own name. */
  lemma EnumTextNamesEachConstant(defs: seq<(string, int)>, i: nat)
    requires i < |defs| && defs[i].0 != ""
    requires forall j, k :: 0 <= j < k < |defs| ==> defs[j].1 != defs[k].1
    ensures EnumText(defs, defs[i].1) == defs[i].0
  {
    FirstMatchIs(defs, defs[i].1, i);
  }

  /** Inserting a copy of an earlier definition, as zone_update_string does
      with DNS_ZONE_UPDATE_SECURE, does not change what any value prints
      as. */
  lemma EnumTextIgnoresRepeatedDefinition(defs: seq<(string, int)>, j: nat, k: nat, value: int)
    requires j < k <= |defs|
    ensures EnumText(defs[..k] + [defs[j]] + defs[k..], value) == EnumText(defs, value)
  {
    var longer := defs[..k] + [defs[j]] + defs[k..];
    match FirstMatch(defs, value)
    case None =>
      RepeatedNoMatch(defs, j, k, value);
    case Some(i) =>
      var i' := RepeatedFirstMatch(defs, j, k, value, i);
      assert longer[i'] == defs[i];
  }

  /** The positions of the longer table: before k, at k, after k. */
  lemma RepeatedAt(defs: seq<(string, int)>, j: nat, k: nat, m: nat)
    requires j < k <= |defs| && m <= |defs|
    ensures (defs[..k] + [defs[j]] + defs[k..])[m] ==
            if m < k then defs[m] else if m == k then defs[j] else defs[m - 1]
  {
  }

  /** With no match in the table, the longer table has none either. */
  lemma RepeatedNoMatch(defs: seq<(string, int)>, j: nat, k: nat, value: int)
    requires j < k <= |defs|
    requires FirstMatch(defs, value) == None
    ensures FirstMatch(defs[..k] + [defs[j]] + defs[k..], value) == None
  {
    var longer := defs[..k] + [defs[j]] + defs[k..];
    forall m | 0 <= m < |longer| ensures longer[m].1 != value {
      RepeatedAt(defs, j, k, m);
    }
  }

  /** The first match at i moves to i' in the longer table, holding the
      same definition. */
  lemma RepeatedFirstMatch(defs: seq<(string, int)>, j: nat, k: nat, value: int, i: nat) returns (i': nat)
    requires j < k <= |defs|
    requires FirstMatch(defs, value) == Some(i)
    ensures i' <= |defs| && (defs[..k] + [defs[j]] + defs[k..])[i'] == defs[i]
    ensures FirstMatch(defs[..k] + [defs[j]] + defs[k..], value) == Some(i')
  {
    var longer := defs[..k] + [defs[j]] + defs[k..];
    i' := if i < k then i else i + 1;
    RepeatedAt(defs, j, k, i');
    forall m | 0 <= m < i' ensures longer[m].1 != value {
      RepeatedAt(defs, j, k, m);
    }
    FirstMatchIs(longer, value, i');
  }

  /** The first match in a list of three definitions, position by position. */
  lemma FirstMatchOfThree(defs: seq<(string, int)>, value: int)
    requires |defs| == 3
    ensures defs[0].1 == value ==> FirstMatch(defs, value) == Some(0)
    ensures defs[0].1 != value && defs[1].1 == value ==> FirstMatch(defs, value) == Some(1)
    ensures defs[0].1 != value && defs[1].1 != value && defs[2].1 == value ==>
              FirstMatch(defs, value) == Some(2)
    ensures defs[0].1 != value && defs[1].1 != value && defs[2].1 != value ==>
              FirstMatch(defs, value) == None
  {
    if defs[0].1 == value {
      FirstMatchIs(defs, value, 0);
    } else if defs[1].1 == value {
      FirstMatchIs(defs, value, 1);
    } else if defs[2].1 == value {
      FirstMatchIs(defs, value, 2);
    } else {
      assert forall j :: 0 <= j < |defs| ==> defs[j].1 != value;
    }
  }

  /** The values of the dnsp zone-update constants. */
  datatype ZoneUpdateConsts = ZoneUpdateConsts(off: int, unsecure: int, secure: int)

  predicate Distinct(k: ZoneUpdateConsts)
  {
    k.off != k.unsecure && k.off != k.secure && k.unsecure != k.secure
  }

  /** zone_update_string as written: its list names SECURE twice and
      UNSECURE not at all. */
  function ZoneUpdateStringAsWritten(k: ZoneUpdateConsts, value: int): (r: string)
    ensures value == k.off ==> r == "DNS_ZONE_UPDATE_OFF"
    ensures value != k.off && value == k.secure ==> r == "DNS_ZONE_UPDATE_SECURE"
    // every other value, UNSECURE included, is unknown
    ensures value != k.off && value != k.secure ==> r == UnknownText(value)
  {
    var defs := [("DNS_ZONE_UPDATE_OFF", k.off), ("DNS_ZONE_UPDATE_SECURE", k.secure),
                 ("DNS_ZONE_UPDATE_SECURE", k.secure)];
    FirstMatchOfThree(defs, value);
    EnumText(defs, value)
  }

  /** Apart from UNSECURE, the list as written prints every value as the
      corrected list does. */
  lemma ZoneUpdateAsWrittenAgreesElsewhere(k: ZoneUpdateConsts, value: int)
    requires Distinct(k) && value != k.unsecure
    ensures ZoneUpdateStringAsWritten(k, value) == ZoneUpdateString(k, value)
  {
  }

  /** As written, a zone that accepts unsecure updates is reported as
      UNKNOWN. */
  lemma ZoneUpdateAsWrittenMissesUnsecure(k: ZoneUpdateConsts)
    requires Distinct(k)
    ensures ZoneUpdateStringAsWritten(k, k.unsecure) == UnknownText(k.unsecure)
  {
  }

  /** zone_update_string with the list it evidently means: OFF, UNSECURE,
      SECURE. */
  function ZoneUpdateString(k: ZoneUpdateConsts, value: int): (r: string)
    ensures value == k.off ==> r == "DNS_ZONE_UPDATE_OFF"
    ensures value != k.off && value == k.unsecure ==> r == "DNS_ZONE_UPDATE_UNSECURE"
    ensures value != k.off && value != k.unsecure && value == k.secure ==> r == "DNS_ZONE_UPDATE_SECURE"
    ensures value != k.off && value != k.unsecure && value != k.secure ==> r == UnknownText(value)
  {
    var defs := [("DNS_ZONE_UPDATE_OFF", k.off), ("DNS_ZONE_UPDATE_UNSECURE", k.unsecure),
                 ("DNS_ZONE_UPDATE_SECURE", k.secure)];
    FirstMatchOfThree(defs, value);
    EnumText(defs, value)
  }

  /** Each of the three modes prints as its own name, and any other value as
      UNKNOWN. */
  lemma ZoneUpdateStringNamesEveryMode(k: ZoneUpdateConsts, value: int)
    requires Distinct(k)
    ensures ZoneUpdateString(k, k.off) == "DNS_ZONE_UPDATE_OFF"
    ensures ZoneUpdateString(k, k.unsecure) == "DNS_ZONE_UPDATE_UNSECURE"
    ensures ZoneUpdateString(k, k.secure) == "DNS_ZONE_UPDATE_SECURE"
    ensures value != k.off && value != k.unsecure && value != k.secure ==>
              ZoneUpdateString(k, value) == UnknownText(value)
  {
  }

  /** Python's truth value of value & flag. */
  predicate Intersects(value: bv32, flag: bv32)
  {
    value & flag != 0
  }

  /** The 'NAME ' words for the flags that intersect value, in list
      order. */
  function Joined(defs: seq<(string, bv32)>, value: bv32): string
    decreases |defs|
  {
    if defs == [] then ""
    else
      var last := defs[|defs| - 1];
      Joined(defs[..|defs| - 1], value) + (if Intersects(value, last.1) then last.0 + " " else "")
  }

  /** What bitmap_string returns. */
  function BitmapText(defs: seq<(string, bv32)>, value: bv32): string
  {
    var words := Joined(defs, value);
    if words == "" then "NONE" else words
  }

  /** bitmap_string: appends 'NAME ' for every flag that intersects value. */
  method BitmapString(defs: seq<(string, bv32)>, value: bv32) returns (ret: string)
    ensures ret == BitmapText(defs, value)
  {
    ret := "";
    var i := 0;
    while i < |defs|
      invariant 0 <= i <= |defs|
      invariant ret == Joined(defs[..i], value)
    {
      assert defs[..i + 1][..i] == defs[..i];
      if Intersects(value, defs[i].1) {
        ret := ret + defs[i].0 + " ";
      }
      i := i + 1;
    }
    assert defs[..i] == defs;
    if ret == "" {
      ret := "NONE";
    }
  }

  /** The words of a concatenated list are the words of each part. */
  lemma {:induction false} JoinedAppend(a: seq<(string, bv32)>, b: seq<(string, bv32)>, value: bv32)
    ensures Joined(a + b, value) == Joined(a, value) + Joined(b, value)
    decreases |b|
  {
    if b == [] {
      assert a + b == a;
    } else {
      var b' := b[..|b| - 1];
      assert (a + b)[..|a + b| - 1] == a + b';
      assert (a + b)[|a + b| - 1] == b[|b| - 1];
      JoinedAppend(a, b', value);
    }
  }

  /** The words are empty exactly when no flag intersects value, and
      otherwise end in a space. */
  lemma {:induction false} JoinedEmptyIff(defs: seq<(string, bv32)>, value: bv32)
    ensures Joined(defs, value) == "" <==> forall i :: 0 <= i < |defs| ==> !Intersects(value, defs[i].1)
    decreases |defs|
  {
    if defs != [] {
      var init, last := defs[..|defs| - 1], defs[|defs| - 1];
      JoinedEmptyIff(init, value);
      assert forall i :: 0 <= i < |init| ==> init[i] == defs[i];
      if Intersects(value, last.1) {
        assert |Joined(defs, value)| >= 1;
      } else {
        assert Joined(defs, value) == Joined(init, value);
      }
    }
  }

  /** Non-empty words end in a space. */
  lemma {:induction false} JoinedEndsInSpace(defs: seq<(string, bv32)>, value: bv32)
    requires Joined(defs, value) != ""
    ensures Joined(defs, value)[|Joined(defs, value)| - 1] == ' '
    decreases |defs|
  {
    var init, last := defs[..|defs| - 1], defs[|defs| - 1];
    if !Intersects(value, last.1) {
      JoinedEndsInSpace(init, value);
    }
  }

  /** bitmap_string says NONE exactly when no listed flag is set. */
  lemma BitmapNoneIff(defs: seq<(string, bv32)>, value: bv32)
    ensures BitmapText(defs, value) == "NONE" <==> forall i :: 0 <= i < |defs| ==> !Intersects(value, defs[i].1)
  {
    JoinedEmptyIff(defs, value);
    var w := Joined(defs, value);
    if w != "" {
      JoinedEndsInSpace(defs, value);
      assert "NONE"[3] == 'E';
    }
  }

  /** The 32 bytes of a DNS_ADDR's MaxSa: a sockaddr whose first byte is the
      family (0x02 for IPv4, 0x17 for IPv6). */
  type MaxSa = s: seq<uint8> | |s| == 32 witness seq(32, i => 0)

  /** One "%x%x" group of the IPv6 form: two bytes, each unpadded. */
  function HexPair(hi: uint8, lo: uint8): string
  {
    NatDigits(hi, 16) + NatDigits(lo, 16)
  }

  function Ipv6Groups(sa: MaxSa): string
  {
    HexPair(sa[4], sa[5]) + ":" + HexPair(sa[6], sa[7]) + ":" + HexPair(sa[8], sa[9]) + ":" +
    HexPair(sa[10], sa[11]) + ":" + HexPair(sa[12], sa[13]) + ":" + HexPair(sa[14], sa[15]) + ":" +
    HexPair(sa[16], sa[17]) + ":" + HexPair(sa[18], sa[19])
  }

  /** The "%d.%d.%d.%d (%d)" form of an IPv4 address and byte 3. */
  function Ipv4Text(a: nat, b: nat, c: nat, d: nat, port: nat): string
  {
    NatDigits(a, 10) + "." + NatDigits(b, 10) + "." + NatDigits(c, 10) + "." +
    NatDigits(d, 10) + " (" + NatDigits(port, 10) + ")"
  }

  /** The text dns_addr_array_string makes of one address. */
  function AddrString(sa: MaxSa): string
  {
    if sa[0] == 0x02 then Ipv4Text(sa[4], sa[5], sa[6], sa[7], sa[3])
    else if sa[0] == 0x17 then
      Ipv6Groups(sa) + " (" + NatDigits(sa[3], 10) + ")"
    else "UNKNOWN"
  }

  /** dns_addr_array_string: one line per address, none for a missing
      addrArray. */
  method DnsAddrArrayString(addrArray: Option<seq<MaxSa>>) returns (ret: seq<string>)
    ensures addrArray.None? ==> ret == []
    ensures addrArray.Some? ==> |ret| == |addrArray.value|
    ensures addrArray.Some? ==> forall i :: 0 <= i < |ret| ==> ret[i] == AddrString(addrArray.value[i])
  {
    ret := [];
    if addrArray.None? {
      return;
    }
    var addrs := addrArray.value;
    var i := 0;
    while i < |addrs|
      invariant 0 <= i <= |addrs|
      invariant |ret| == i
      invariant forall j :: 0 <= j < i ==> ret[j] == AddrString(addrs[j])
    {
      var addr := AddrEntryString(addrs[i]);
      ghost var done := ret;
      ret := ret + [addr];
      assert forall j :: 0 <= j < i ==> ret[j] == done[j];
      i := i + 1;
    }
  }

  /** The text of one entry, by its family: IPv4, IPv6 or UNKNOWN. */
  method AddrEntryString(sa: MaxSa) returns (addr: string)
    ensures addr == AddrString(sa)
  {
    if sa[0] == 0x02 {
      addr := Ipv4Text(sa[4], sa[5], sa[6], sa[7], sa[3]);
    } else if sa[0] == 0x17 {
      addr := Ipv6Groups(sa) + " (" + NatDigits(sa[3], 10) + ")";
    } else {
      addr := "UNKNOWN";
    }
  }

  /** Only the two known families print an address. */
  lemma UnknownFamilyIff(sa: MaxSa)
    ensures AddrString(sa) == "UNKNOWN" <==> sa[0] != 0x02 && sa[0] != 0x17
  {
    if sa[0] == 0x02 {
      assert AddrString(sa)[0] == NatDigits(sa[4], 10)[0];
      assert IsDigit(AddrString(sa)[0], 10);
    } else if sa[0] == 0x17 {
      var g := HexPair(sa[4], sa[5]);
      assert AddrString(sa)[0] == g[0] == NatDigits(sa[4], 16)[0];
      assert IsDigit(AddrString(sa)[0], 16);
    }
  }

  /** Reads one number followed by the separator sep. */
  function ReadField(s: string, sep: string): Option<(nat, string)>
  {
    match ReadNat(s, 10)
    case None => None
    case Some((n, rest)) =>
      if |sep| <= |rest| && rest[..|sep|] == sep then Some((n, rest[|sep|..])) else None
  }

  /** Parses the IPv4 form "a.b.c.d (p)" back into its five numbers. */
  function ParseIpv4(s: string): Option<seq<nat>>
  {
    match ReadField(s, ".")
    case None => None
    case Some((a, s1)) =>
      match ReadField(s1, ".")
      case None => None
      case Some((b, s2)) =>
        match ReadField(s2, ".")
        case None => None
        case Some((c, s3)) =>
          match ReadField(s3, " (")
          case None => None
          case Some((d, s4)) =>
            match ReadField(s4, ")")
            case None => None
            case Some((p, s5)) => if s5 == "" then Some([a, b, c, d, p]) else None
  }

  /** A number printed before a separator that does not start with a digit
      is read back, leaving what follows the separator. */
  lemma ReadFieldDigits(n: nat, sep: string, rest: string)
    requires sep != [] && !IsDigit(sep[0], 10)
    ensures ReadField(NatDigits(n, 10) + sep + rest, sep) == Some((n, rest))
  {
    var tail := sep + rest;
    assert NatDigits(n, 10) + sep + rest == NatDigits(n, 10) + tail;
    ReadNatDigits(n, tail, 10);
    assert tail[..|sep|] == sep;
    assert tail[|sep|..] == rest;
  }

  /** The IPv4 text's five fields, bracketed from the right: each field
      followed by the rest of the text. */
  lemma Ipv4Nested(da: string, db: string, dc: string, dd: string, dp: string)
    ensures da + "." + db + "." + dc + "." + dd + " (" + dp + ")" ==
            da + "." + (db + "." + (dc + "." + (dd + " (" + (dp + ")" + ""))))
  {
    var s3 := dd + " (" + (dp + ")" + "");
    assert da + "." + db + "." + dc + "." + dd + " (" + dp + ")" == (da + "." + db + "." + dc + ".") + s3;
    assert (da + "." + db + "." + dc + ".") + s3 == (da + "." + db + ".") + (dc + "." + s3);
  }

  /** The IPv4 form is unambiguous: parsing it gives back its five
      numbers. */
  lemma Ipv4TextRoundTrip(a: nat, b: nat, c: nat, d: nat, port: nat)
    ensures ParseIpv4(Ipv4Text(a, b, c, d, port)) == Some([a, b, c, d, port])
  {
    var s4 := NatDigits(port, 10) + ")" + "";
    var s3 := NatDigits(d, 10) + " (" + s4;
    var s2 := NatDigits(c, 10) + "." + s3;
    var s1 := NatDigits(b, 10) + "." + s2;
    Ipv4Nested(NatDigits(a, 10), NatDigits(b, 10), NatDigits(c, 10), NatDigits(d, 10), NatDigits(port, 10));
    ReadFieldDigits(a, ".", s1);
    ReadFieldDigits(b, ".", s2);
    ReadFieldDigits(c, ".", s3);
    ReadFieldDigits(d, " (", s4);
    ReadFieldDigits(port, ")", "");
  }

  /** Hence an IPv4 address prints as text that gives back the four address
      bytes and byte 3 of the sockaddr. */
  lemma Ipv4RoundTrip(sa: MaxSa)
    requires sa[0] == 0x02
    ensures ParseIpv4(AddrString(sa)) == Some([sa[4] as nat, sa[5] as nat, sa[6] as nat, sa[7] as nat, sa[3] as nat])
  {
    Ipv4TextRoundTrip(sa[4], sa[5], sa[6], sa[7], sa[3]);
  }

  /** The IPv6 form is ambiguous because "%x%x" does not pad: the bytes
      01 23 and 12 03 both print as "123". */
  lemma Ipv6FormIsAmbiguous(sa: MaxSa)
    requires sa[0] == 0x17 && sa[4] == 0x01 && sa[5] == 0x23
    ensures sa[4 := 0x12][5 := 0x03] != sa
    ensures AddrString(sa[4 := 0x12][5 := 0x03]) == AddrString(sa)
  {
    var sb := sa[4 := 0x12][5 := 0x03];
    assert NatDigits(0x01, 16) == "1";
    assert NatDigits(0x23, 16) == "23" by {
      assert NatDigits(0x23 / 16, 16) == "2";
    }
    assert NatDigits(0x12, 16) == "12" by {
      assert NatDigits(0x12 / 16, 16) == "1";
    }
    assert NatDigits(0x03, 16) == "3";
    assert HexPair(sb[4], sb[5]) == HexPair(sa[4], sa[5]);
    assert forall k :: 6 <= k < 32 ==> sb[k] == sa[k];
    assert Ipv6Groups(sb) == Ipv6Groups(sa);
  }
}
