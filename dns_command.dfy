/** The argument handling of the samba-tool dns subcommands: record-type and
    client-version names, the records the add/update/delete commands build,
    the update command's copy of the matched record's properties, and the
    zone and view filters of zonelist and query. The dnsp/dnsserver
    constants are distinct abstract values (datatype constructors) or
    inputs. */
module DnsCommand {

  import opened Wrappers
  import opened Bytes
  import opened Strings

  /** The dnsp DNS_TYPE_* constants the tool names. */
  datatype RecordType = TypeA | TypeAaaa | TypeNs | TypeCname | TypeSoa | TypeMx | TypeSrv | TypeAll

  /** The upper-case name dns_type_flag accepts for each type it knows. */
  function TypeName(t: RecordType): Option<string>
  {
    match t
    case TypeA => Some("A")
    case TypeNs => Some("NS")
    case TypeCname => Some("CNAME")
    case TypeSoa => Some("SOA")
    case TypeMx => Some("MX")
    case TypeSrv => Some("SRV")
    case TypeAll => Some("ALL")
    case TypeAaaa => None
  }

  /** dns_type_flag: the record type named (in any case) by recType, or the
      CommandError message. */
  function DnsTypeFlag(recType: string): (r: Result<RecordType, string>)
    ensures r.Err? ==> r.error == "Unknown type of DNS record " + recType
    ensures r.Ok? ==> TypeName(r.value) == Some(Upper(recType))
  {
    var rtype := Upper(recType);
    if rtype == "A" then Ok(TypeA)
    else if rtype == "NS" then Ok(TypeNs)
    else if rtype == "CNAME" then Ok(TypeCname)
    else if rtype == "SOA" then Ok(TypeSoa)
    else if rtype == "MX" then Ok(TypeMx)
    else if rtype == "SRV" then Ok(TypeSrv)
    else if rtype == "ALL" then Ok(TypeAll)
    else Err("Unknown type of DNS record " + recType)
  }

  /** Every type with a name is reached from that name, in any case: the
      mapping inverts TypeName. */
  lemma DnsTypeFlagInvertsTypeName(t: RecordType, recType: string)
    requires TypeName(t).Some? && Upper(recType) == TypeName(t).value
    ensures DnsTypeFlag(recType) == Ok(t)
  {
  }

  /** A name is accepted exactly when it is one of the seven known names. */
  lemma DnsTypeFlagAcceptsIff(recType: string)
    ensures DnsTypeFlag(recType).Ok? <==> Upper(recType) in {"A", "NS", "CNAME", "SOA", "MX", "SRV", "ALL"}
  {
    var r := DnsTypeFlag(recType);
    if r.Ok? {
      assert TypeName(r.value) == Some(Upper(recType));
    }
  }

  /** No name selects AAAA, "AAAA" included, so the AAAA branches of add,
      update and delete can never run. */
  lemma NoNameSelectsAaaa(recType: string)
    ensures DnsTypeFlag(recType) != Ok(TypeAaaa)
    ensures DnsTypeFlag("aaaa").Err? && DnsTypeFlag("AAAA").Err?
  {
    assert Upper("aaaa") == "AAAA";
    assert Upper("AAAA") == "AAAA";
  }

  /** The dnsserver DNS_CLIENT_VERSION_* constants. */
  datatype ClientVersion = W2K | DotNet | Longhorn

  /** dns_client_version: the client version named (in any case), or the
      CommandError message. */
  function DnsClientVersion(cliVersion: string): (r: Result<ClientVersion, string>)
    ensures r.Err? ==> r.error == "Unknown client version " + cliVersion &&
                       Upper(cliVersion) !in {"W2K", "DOTNET", "LONGHORN"}
    ensures r == Ok(W2K) <==> Upper(cliVersion) == "W2K"
    ensures r == Ok(DotNet) <==> Upper(cliVersion) == "DOTNET"
    ensures r == Ok(Longhorn) <==> Upper(cliVersion) == "LONGHORN"
  {
    var version := Upper(cliVersion);
    if version == "W2K" then Ok(W2K)
    else if version == "DOTNET" then Ok(DotNet)
    else if version == "LONGHORN" then Ok(Longhorn)
    else Err("Unknown client version " + cliVersion)
  }

  /** The answer type zonelist reports the EnumZones result as. */
  datatype ZoneTypeId = TypeIdZoneW2K | TypeIdZone

  function ZoneListTypeId(v: ClientVersion): (t: ZoneTypeId)
    ensures t == TypeIdZoneW2K <==> v == W2K
  {
    if v == W2K then TypeIdZoneW2K else TypeIdZone
  }

  /** The dnsp constants the record classes use as defaults. */
  datatype DnspConsts = DnspConsts(rankZone: bv32, authZoneRoot: bv32)

  /** DNS_RPC_NAME: the string and its length. */
  datatype RpcName = RpcName(str: string, len: nat)

  function NameOf(s: string): (n: RpcName)
    ensures n.str == s && n.len == |s|
  {
    RpcName(s, |s|)
  }

  datatype RecordData =
    | Address(text: string)
    | NameData(name: RpcName)
    | SoaData(serialNo: uint32, refresh: uint32, retry: uint32, expire: uint32, minimumTtl: uint32,
              primaryServer: RpcName, adminEmail: RpcName)
    | SrvData(priority: uint16, weight: uint16, port: uint16, target: RpcName)

  /** DNS_RPC_RECORD; fields a class leaves alone keep the binding's zero. */
  datatype RpcRecord = RpcRecord(wType: RecordType, dwFlags: bv32, dwSerial: uint32,
                                 dwTtlSeconds: uint32, dwTimeStamp: uint32, data: RecordData)

  /** The field rule every record class shares: flags are rank | node_flag,
      serial and ttl as given, timestamp left at zero. */
  predicate Header(r: RpcRecord, t: RecordType, serial: uint32, ttl: uint32, rank: bv32, nodeFlag: bv32)
  {
    r.wType == t && r.dwFlags == rank | nodeFlag && r.dwSerial == serial &&
    r.dwTtlSeconds == ttl && r.dwTimeStamp == 0
  }

  function ARecord(k: DnspConsts, ipAddr: string, serial: uint32 := 1, ttl: uint32 := 900,
                   rank: bv32 := k.rankZone, nodeFlag: bv32 := 0): (r: RpcRecord)
    ensures Header(r, TypeA, serial, ttl, rank, nodeFlag) && r.data == Address(ipAddr)
  {
    RpcRecord(TypeA, rank | nodeFlag, serial, ttl, 0, Address(ipAddr))
  }

  function AaaaRecord(k: DnspConsts, ip6Addr: string, serial: uint32 := 1, ttl: uint32 := 900,
                      rank: bv32 := k.rankZone, nodeFlag: bv32 := 0): (r: RpcRecord)
    ensures Header(r, TypeAaaa, serial, ttl, rank, nodeFlag) && r.data == Address(ip6Addr)
  {
    RpcRecord(TypeAaaa, rank | nodeFlag, serial, ttl, 0, Address(ip6Addr))
  }

  function CNameRecord(k: DnspConsts, cname: string, serial: uint32 := 1, ttl: uint32 := 900,
                       rank: bv32 := k.rankZone, nodeFlag: bv32 := 0): (r: RpcRecord)
    ensures Header(r, TypeCname, serial, ttl, rank, nodeFlag)
    ensures r.data.NameData? && r.data.name.str == cname && r.data.name.len == |cname|
  {
    RpcRecord(TypeCname, rank | nodeFlag, serial, ttl, 0, NameData(NameOf(cname)))
  }

  function NsRecord(k: DnspConsts, dnsServer: string, serial: uint32 := 1, ttl: uint32 := 900,
                    rank: bv32 := k.rankZone, nodeFlag: bv32 := 0): (r: RpcRecord)
    ensures Header(r, TypeNs, serial, ttl, rank, nodeFlag)
    ensures r.data.NameData? && r.data.name.str == dnsServer && r.data.name.len == |dnsServer|
  {
    RpcRecord(TypeNs, rank | nodeFlag, serial, ttl, 0, NameData(NameOf(dnsServer)))
  }

  /** SOARecord as written: `minimum` is accepted but never stored, so the
      minimum TTL stays zero. */
  function SoaRecordAsWritten(k: DnspConsts, mname: string, rname: string, serial: uint32 := 1,
                              refresh: uint32 := 900, retry: uint32 := 600, expire: uint32 := 86400,
                              minimum: uint32 := 3600, ttl: uint32 := 3600, rank: bv32 := k.rankZone,
                              nodeFlag: bv32 := k.authZoneRoot): (r: RpcRecord)
    ensures r == SoaRecord(k, mname, rname, serial, refresh, retry, expire, minimum, ttl, rank, nodeFlag)
                   .(data := SoaRecord(k, mname, rname, serial, refresh, retry, expire, minimum, ttl, rank, nodeFlag)
                             .data.(minimumTtl := 0))
  {
    RpcRecord(TypeSoa, rank | nodeFlag, serial, ttl, 0,
              SoaData(serial, refresh, retry, expire, 0, NameOf(mname), NameOf(rname)))
  }

  /** With the defaults the record as written has a zero minimum TTL, not
      the 3600 seconds the signature promises. */
  lemma SoaRecordAsWrittenDropsMinimum(k: DnspConsts, mname: string, rname: string)
    ensures SoaRecordAsWritten(k, mname, rname).data.minimumTtl == 0
    ensures SoaRecord(k, mname, rname).data.minimumTtl == 3600
  {
  }

  /** SOARecord with the minimum TTL stored as its parameter evidently
      intends. */
  function SoaRecord(k: DnspConsts, mname: string, rname: string, serial: uint32 := 1,
                     refresh: uint32 := 900, retry: uint32 := 600, expire: uint32 := 86400,
                     minimum: uint32 := 3600, ttl: uint32 := 3600, rank: bv32 := k.rankZone,
                     nodeFlag: bv32 := k.authZoneRoot): (r: RpcRecord)
    ensures Header(r, TypeSoa, serial, ttl, rank, nodeFlag)
    ensures r.data == SoaData(serial, refresh, retry, expire, minimum, NameOf(mname), NameOf(rname))
    ensures r.data.serialNo == r.dwSerial
  {
    RpcRecord(TypeSoa, rank | nodeFlag, serial, ttl, 0,
              SoaData(serial, refresh, retry, expire, minimum, NameOf(mname), NameOf(rname)))
  }

  function SrvRecord(k: DnspConsts, target: string, port: uint16, priority: uint16 := 0,
                     weight: uint16 := 100, serial: uint32 := 1, ttl: uint32 := 900,
                     rank: bv32 := k.rankZone, nodeFlag: bv32 := 0): (r: RpcRecord)
    ensures Header(r, TypeSrv, serial, ttl, rank, nodeFlag)
    ensures r.data == SrvData(priority, weight, port, NameOf(target))
  {
    RpcRecord(TypeSrv, rank | nodeFlag, serial, ttl, 0, SrvData(priority, weight, port, NameOf(target)))
  }

  /** The three record commands and the word their error message uses. */
  datatype Verb = Adding | Updating | Deleting

  function VerbText(v: Verb): string
  {
    match v
    case Adding => "Adding"
    case Updating => "Updating"
    case Deleting => "Deleting"
  }

  /** The record add, update and delete build for a record type: only A,
      AAAA, CNAME and NS are supported, each with the class defaults. */
  function BuildRecord(k: DnspConsts, verb: Verb, t: RecordType, rtype: string, data: string): (r: Result<RpcRecord, string>)
    ensures t !in {TypeA, TypeAaaa, TypeCname, TypeNs} ==>
              r == Err(VerbText(verb) + " record of type " + rtype + " is not supported")
    ensures t in {TypeA, TypeAaaa} ==> r.Ok? && r.value.data == Address(data)
    ensures t in {TypeCname, TypeNs} ==> r.Ok? && r.value.data == NameData(NameOf(data))
    ensures r.Ok? ==> r.value.wType == t && Header(r.value, t, 1, 900, k.rankZone, 0)
  {
    if t == TypeA then Ok(ARecord(k, data))
    else if t == TypeAaaa then Ok(AaaaRecord(k, data))
    else if t == TypeCname then Ok(CNameRecord(k, data))
    else if t == TypeNs then Ok(NsRecord(k, data))
    else Err(VerbText(verb) + " record of type " + rtype + " is not supported")
  }

  /** The command's record: dns_type_flag's error first, then BuildRecord. */
  function CommandRecord(k: DnspConsts, verb: Verb, rtype: string, data: string): (r: Result<RpcRecord, string>)
    ensures DnsTypeFlag(rtype).Err? ==> r == Err(DnsTypeFlag(rtype).error)
    ensures DnsTypeFlag(rtype).Ok? ==> r == BuildRecord(k, verb, DnsTypeFlag(rtype).value, rtype, data)
  {
    match DnsTypeFlag(rtype)
    case Err(e) => Err(e)
    case Ok(t) => BuildRecord(k, verb, t, rtype, data)
  }

  /** The commands build a record exactly for the names A, CNAME and NS (in
      any case), and the record carries the data given on the command
      line. */
  lemma CommandRecordSupportedIff(k: DnspConsts, verb: Verb, rtype: string, data: string)
    ensures CommandRecord(k, verb, rtype, data).Ok? <==> Upper(rtype) in {"A", "CNAME", "NS"}
    ensures CommandRecord(k, verb, rtype, data).Ok? ==>
              CommandRecord(k, verb, rtype, data).value.data in {Address(data), NameData(NameOf(data))}
  {
    DnsTypeFlagAcceptsIff(rtype);
    NoNameSelectsAaaa(rtype);
    var r := DnsTypeFlag(rtype);
    if r.Ok? {
      assert TypeName(r.value) == Some(Upper(rtype));
    }
  }

  /** update: the new record takes the matched record's flags, serial, ttl
      and timestamp, and keeps its own type and data. */
  function WithCopiedProperties(rec: RpcRecord, recMatch: RpcRecord): (r: RpcRecord)
    ensures r.dwFlags == recMatch.dwFlags && r.dwSerial == recMatch.dwSerial
    ensures r.dwTtlSeconds == recMatch.dwTtlSeconds && r.dwTimeStamp == recMatch.dwTimeStamp
    ensures r.wType == rec.wType && r.data == rec.data
  {
    rec.(dwFlags := recMatch.dwFlags, dwSerial := recMatch.dwSerial,
         dwTtlSeconds := recMatch.dwTtlSeconds, dwTimeStamp := recMatch.dwTimeStamp)
  }

  /** Only the matched record's properties survive: the defaults of the new
      record are irrelevant, and copying from a record with the same type
      and data gives that record back. */
  lemma CopiedPropertiesForgetDefaults(rec1: RpcRecord, rec2: RpcRecord, recMatch: RpcRecord)
    requires rec1.wType == rec2.wType && rec1.data == rec2.data
    ensures WithCopiedProperties(rec1, recMatch) == WithCopiedProperties(rec2, recMatch)
    ensures rec1.wType == recMatch.wType && rec1.data == recMatch.data ==>
              WithCopiedProperties(rec1, recMatch) == recMatch
  {
  }

  /** A flag word of the filters, as the set of its one-bits: `|` is union
      and a zero word is the empty set. */
  type Bits = set<nat>

  /** The OR of the flags whose option is chosen. */
  function OrChosen(chosen: seq<bool>, flags: seq<Bits>): Bits
    requires |chosen| == |flags|
    decreases |chosen|
  {
    if chosen == [] then {}
    else (if chosen[0] then flags[0] else {}) + OrChosen(chosen[1..], flags[1..])
  }

  /** The filter rule zonelist and query share: the OR of the chosen flags,
      or the default when that OR is zero. */
  function FlagFilter(chosen: seq<bool>, flags: seq<Bits>, default: Bits): (r: Bits)
    requires |chosen| == |flags|
    // every chosen flag's bits are in the filter
    ensures forall i, b :: 0 <= i < |chosen| && chosen[i] && b in flags[i] ==> b in r
    // and nothing else but the default's
    ensures forall b :: b in r ==> b in default || exists i :: 0 <= i < |chosen| && chosen[i] && b in flags[i]
  {
    OrChosenBits(chosen, flags);
    var f := OrChosen(chosen, flags);
    if f == {} then
      assert forall i :: 0 <= i < |chosen| && chosen[i] ==> flags[i] == {};
      default
    else f
  }

  /** The OR holds the bits of the chosen flags and nothing else. */
  lemma OrChosenBits(chosen: seq<bool>, flags: seq<Bits>)
    requires |chosen| == |flags|
    ensures forall i, b :: 0 <= i < |chosen| && chosen[i] && b in flags[i] ==> b in OrChosen(chosen, flags)
    ensures forall b :: b in OrChosen(chosen, flags) ==> exists i :: 0 <= i < |chosen| && chosen[i] && b in flags[i]
  {
    forall b | b in OrChosen(chosen, flags)
      ensures exists i :: 0 <= i < |chosen| && chosen[i] && b in flags[i]
    {
      OrChosenIff(chosen, flags, b);
    }
    forall i, b | 0 <= i < |chosen| && chosen[i] && b in flags[i]
      ensures b in OrChosen(chosen, flags)
    {
      OrChosenIff(chosen, flags, b);
    }
  }

  /** A bit is in the OR exactly when some chosen flag has it. */
  lemma {:induction false} OrChosenIff(chosen: seq<bool>, flags: seq<Bits>, bit: nat)
    requires |chosen| == |flags|
    ensures bit in OrChosen(chosen, flags) <==> exists i :: 0 <= i < |chosen| && chosen[i] && bit in flags[i]
    decreases |chosen|
  {
    if chosen != [] {
      OrChosenIff(chosen[1..], flags[1..], bit);
      if bit in OrChosen(chosen[1..], flags[1..]) {
        var i :| 0 <= i < |chosen| - 1 && chosen[1..][i] && bit in flags[1..][i];
        assert chosen[i + 1] && bit in flags[i + 1];
      }
      if exists i :: 0 <= i < |chosen| && chosen[i] && bit in flags[i] {
        var i :| 0 <= i < |chosen| && chosen[i] && bit in flags[i];
        if i > 0 {
          assert chosen[1..][i - 1] && bit in flags[1..][i - 1];
        }
      }
    }
  }

  /** Unless the chosen flags are all zero, the filter holds the bits of
      the chosen flags and nothing else; with nothing chosen it is the
      default. */
  lemma FlagFilterIff(chosen: seq<bool>, flags: seq<Bits>, default: Bits, bit: nat)
    requires |chosen| == |flags|
    ensures OrChosen(chosen, flags) != {} ==>
              (bit in FlagFilter(chosen, flags, default) <==>
               exists i :: 0 <= i < |chosen| && chosen[i] && bit in flags[i])
    ensures (forall i :: 0 <= i < |chosen| ==> !chosen[i]) ==> FlagFilter(chosen, flags, default) == default
  {
    OrChosenIff(chosen, flags, bit);
    if forall i :: 0 <= i < |chosen| ==> !chosen[i] {
      NoneChosenIsEmpty(chosen, flags);
    }
  }

  /** With nothing chosen the OR is empty. */
  lemma {:induction false} NoneChosenIsEmpty(chosen: seq<bool>, flags: seq<Bits>)
    requires |chosen| == |flags|
    requires forall i :: 0 <= i < |chosen| ==> !chosen[i]
    ensures OrChosen(chosen, flags) == {}
    decreases |chosen|
  {
    if chosen != [] {
      assert forall i :: 0 <= i < |chosen| - 1 ==> chosen[1..][i] == chosen[i + 1];
      NoneChosenIsEmpty(chosen[1..], flags[1..]);
    }
  }

  /** With only the first option chosen the OR is the first flag. */
  lemma FirstChosenOnly(chosen: seq<bool>, flags: seq<Bits>)
    requires |chosen| == |flags| && chosen != [] && chosen[0]
    requires forall i :: 1 <= i < |chosen| ==> !chosen[i]
    ensures OrChosen(chosen, flags) == flags[0]
  {
    assert forall i :: 0 <= i < |chosen| - 1 ==> chosen[1..][i] == chosen[i + 1];
    NoneChosenIsEmpty(chosen[1..], flags[1..]);
  }

  /** The zonelist options. */
  datatype ZoneListOptions = ZoneListOptions(primary: bool, secondary: bool, cache: bool, auto: bool,
                                             forward: bool, reverse: bool, ds: bool, nonds: bool)

  /** The DNS_ZONE_REQUEST_* values, in option order. */
  datatype ZoneRequestFlags = ZoneRequestFlags(primary: Bits, secondary: Bits, cache: Bits, auto: Bits,
                                               forward: Bits, reverse: Bits, ds: Bits, nonds: Bits)

  /** The zonelist options and their flags, in option order. */
  function ZoneChosen(o: ZoneListOptions): (c: seq<bool>)
    ensures |c| == 8
  {
    [o.primary, o.secondary, o.cache, o.auto, o.forward, o.reverse, o.ds, o.nonds]
  }

  function ZoneFlags(k: ZoneRequestFlags): (f: seq<Bits>)
    ensures |f| == 8
  {
    [k.primary, k.secondary, k.cache, k.auto, k.forward, k.reverse, k.ds, k.nonds]
  }

  /** zonelist's request_filter. */
  function ZoneRequestFilter(o: ZoneListOptions, k: ZoneRequestFlags): (r: Bits)
    // every chosen category is requested
    ensures forall i, b :: 0 <= i < 8 && ZoneChosen(o)[i] && b in ZoneFlags(k)[i] ==> b in r
    // nothing is requested beyond the chosen categories and the PRIMARY default
    ensures forall b :: b in r ==> b in k.primary || exists i :: 0 <= i < 8 && ZoneChosen(o)[i] && b in ZoneFlags(k)[i]
  {
    FlagFilter(ZoneChosen(o), ZoneFlags(k), k.primary)
  }

  /** No option and --primary alone ask for the same zones: the PRIMARY
      ones. */
  lemma ZoneRequestFilterDefaultsToPrimary(k: ZoneRequestFlags)
    ensures ZoneRequestFilter(ZoneListOptions(false, false, false, false, false, false, false, false), k) == k.primary
    ensures ZoneRequestFilter(ZoneListOptions(true, false, false, false, false, false, false, false), k) == k.primary
  {
    var flags := ZoneFlags(k);
    assert ZoneRequestFilter(ZoneListOptions(false, false, false, false, false, false, false, false), k) == k.primary by {
      NoneChosenIsEmpty(ZoneChosen(ZoneListOptions(false, false, false, false, false, false, false, false)), flags);
    }
    assert ZoneRequestFilter(ZoneListOptions(true, false, false, false, false, false, false, false), k) == k.primary by {
      FirstChosenOnly(ZoneChosen(ZoneListOptions(true, false, false, false, false, false, false, false)), flags);
    }
  }

  /** The query options. */
  datatype QueryOptions = QueryOptions(authority: bool, cache: bool, glue: bool, root: bool,
                                       additional: bool, noChildren: bool, onlyChildren: bool)

  /** The DNS_RPC_VIEW_* values, in option order. */
  datatype ViewFlags = ViewFlags(authority: Bits, cache: Bits, glue: Bits, root: Bits,
                                 additional: Bits, noChildren: Bits, onlyChildren: Bits)

  /** The query options and their views, in option order. */
  function QueryChosen(o: QueryOptions): (c: seq<bool>)
    ensures |c| == 7
  {
    [o.authority, o.cache, o.glue, o.root, o.additional, o.noChildren, o.onlyChildren]
  }

  function QueryFlags(k: ViewFlags): (f: seq<Bits>)
    ensures |f| == 7
  {
    [k.authority, k.cache, k.glue, k.root, k.additional, k.noChildren, k.onlyChildren]
  }

  /** query's select_flags. */
  function QuerySelectFlags(o: QueryOptions, k: ViewFlags): (r: Bits)
    // every chosen view is selected
    ensures forall i, b :: 0 <= i < 7 && QueryChosen(o)[i] && b in QueryFlags(k)[i] ==> b in r
    // nothing is selected beyond the chosen views and the AUTHORITY default
    ensures forall b :: b in r ==> b in k.authority || exists i :: 0 <= i < 7 && QueryChosen(o)[i] && b in QueryFlags(k)[i]
  {
    FlagFilter(QueryChosen(o), QueryFlags(k), k.authority)
  }

  /** Without options query searches the authoritative data. */
  lemma QuerySelectFlagsDefaultsToAuthority(k: ViewFlags)
    ensures QuerySelectFlags(QueryOptions(false, false, false, false, false, false, false), k) == k.authority
  {
    NoneChosenIsEmpty(QueryChosen(QueryOptions(false, false, false, false, false, false, false)), QueryFlags(k));
  }
}
