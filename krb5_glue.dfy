/** Self-contained decisions of Samba's Kerberos glue: the keytab name
    handed to the Kerberos library, the service principal for a host, when
    expired credentials are removed from a cache, the Kerberos address of a
    socket, and the key made from an unsalted password. Answers of the
    Kerberos library, the allocator and the configuration are parameters. */
module Krb5Glue {

  import opened Wrappers
  import opened Bytes
  import opened Strings
  import GssChecksum

  const MAX_KEYTAB_NAME_LEN: nat := 1100

  function StartsWith(s: string, prefix: string): (r: bool)
    ensures r <==> exists rest :: s == prefix + rest
  {
    if |prefix| <= |s| && s[..|prefix|] == prefix then
      assert s == prefix + s[|prefix|..];
      true
    else
      assert forall rest :: s == prefix + rest ==> s[..|prefix|] == prefix;
      false
  }

  /** The errors smb_krb5_open_keytab can return before reaching the
      library. */
  datatype KeytabError = NoMemory | ConfigNotEnoughSpace | KeytabBadName

  /** What smb_krb5_open_keytab does: open the default keytab read-only,
      resolve a name, search the configured default names (not modelled
      further), or fail. */
  datatype KeytabOutcome = OpenDefault | Resolve(name: string) | SearchDefaultNames | Failed(error: KeytabError)

  /** The pragma a keytab path gets: WRFILE only for write access on a
      library that has it. */
  function Pragma(writeAccess: bool, haveWrfileKeytab: bool): (p: string)
    ensures p == "WRFILE" <==> writeAccess && haveWrfileKeytab
    ensures p == "FILE" <==> !(writeAccess && haveWrfileKeytab)
  {
    if haveWrfileKeytab && writeAccess then "WRFILE" else "FILE"
  }

  /** smb_krb5_open_keytab up to the call into the library. `nameReq` is
      NULL (None) or the requested name; `tallocOk` and `asprintfOk` are the
      allocator's answers. */
  method OpenKeytab(nameReq: Option<string>, writeAccess: bool, haveWrfileKeytab: bool,
                    tallocOk: bool, asprintfOk: bool) returns (r: KeytabOutcome)
    ensures !writeAccess && nameReq.None? ==> r == OpenDefault
    ensures (writeAccess || nameReq.Some?) && !tallocOk ==> r == Failed(NoMemory)
    ensures tallocOk && writeAccess && nameReq.None? ==> r == SearchDefaultNames
    ensures tallocOk && nameReq.Some? ==> r == KeytabForName(nameReq.value, Pragma(writeAccess, haveWrfileKeytab), asprintfOk)
  {
    if !writeAccess && nameReq.None? {
      return OpenDefault;
    }
    if !tallocOk {
      return Failed(NoMemory);
    }
    var pragma := Pragma(writeAccess, haveWrfileKeytab);
    if nameReq.Some? {
      return KeytabForName(nameReq.value, pragma, asprintfOk);
    }
    return SearchDefaultNames;
  }

  /** The explicit-name branch: the name a requested keytab resolves to. The
      length limit is on `strlen`, the name's length in bytes (UTF-8). An
      empty name has '\0' where the code looks for '/'. */
  function KeytabForName(name: string, pragma: string, asprintfOk: bool): (r: KeytabOutcome)
    ensures Utf8Length(name) > MAX_KEYTAB_NAME_LEN ==> r == Failed(ConfigNotEnoughSpace)
    ensures r.Resolve? ==> Utf8Length(name) <= MAX_KEYTAB_NAME_LEN
    // a name that already carries a FILE:/ or WRFILE:/ prefix is used verbatim
    ensures Utf8Length(name) <= MAX_KEYTAB_NAME_LEN && (StartsWith(name, "FILE:/") || StartsWith(name, "WRFILE:/")) ==>
              r == Resolve(name)
    // any other name that is not an absolute path is refused
    ensures Utf8Length(name) <= MAX_KEYTAB_NAME_LEN && !StartsWith(name, "FILE:/") && !StartsWith(name, "WRFILE:/") &&
            (name == [] || name[0] != '/') ==>
              r == Failed(KeytabBadName)
    // an absolute path gets the pragma, unless building the string fails
    ensures Utf8Length(name) <= MAX_KEYTAB_NAME_LEN && name != [] && name[0] == '/' ==>
              r == if asprintfOk then Resolve(pragma + ":" + name) else Failed(NoMemory)
  {
    if Utf8Length(name) > MAX_KEYTAB_NAME_LEN then Failed(ConfigNotEnoughSpace)
    else if StartsWith(name, "WRFILE:/") || StartsWith(name, "FILE:/") then Resolve(name)
    else if name == [] || name[0] != '/' then Failed(KeytabBadName)
    else if !asprintfOk then Failed(NoMemory)
    else Resolve(pragma + ":" + name)
  }

  /** Whatever is resolved is a FILE or WRFILE keytab with an absolute path,
      and it names the requested path. */
  lemma ResolvedNamesAreFileKeytabs(name: string, writeAccess: bool, haveWrfileKeytab: bool, asprintfOk: bool)
    ensures var r := KeytabForName(name, Pragma(writeAccess, haveWrfileKeytab), asprintfOk);
            r.Resolve? ==> (StartsWith(r.name, "FILE:/") || StartsWith(r.name, "WRFILE:/"))
    ensures var r := KeytabForName(name, Pragma(writeAccess, haveWrfileKeytab), asprintfOk);
            r.Resolve? ==> exists front :: r.name == front + name
    // WRFILE is added only for write access on a library that has it
    ensures var r := KeytabForName(name, Pragma(writeAccess, haveWrfileKeytab), asprintfOk);
            r.Resolve? && StartsWith(r.name, "WRFILE:/") && !StartsWith(name, "WRFILE:/") ==>
              writeAccess && haveWrfileKeytab
  {
    var p := Pragma(writeAccess, haveWrfileKeytab);
    var r := KeytabForName(name, p, asprintfOk);
    if r.Resolve? && r.name == name {
      assert r.name == [] + r.name;
    } else if r.Resolve? {
      assert r.name == p + ":" + name && name[0] == '/';
      PragmaPrefix(p, name);
      if !(writeAccess && haveWrfileKeytab) {
        assert r.name[0] == 'F';
      }
    }
  }

  /** A pragma in front of an absolute path gives a FILE:/ or WRFILE:/ name
      that ends with the path. */
  lemma PragmaPrefix(p: string, name: string)
    requires p in {"FILE", "WRFILE"} && name != [] && name[0] == '/'
    ensures StartsWith(p + ":" + name, "FILE:/") || StartsWith(p + ":" + name, "WRFILE:/")
    ensures p + ":" + name == (p + ":") + name
  {
    assert p + ":" + name == (p + ":/") + name[1..];
  }

  /** Normalising is idempotent: a resolved name, requested again, resolves
      to itself, as long as the added pragma kept it within the length
      limit. */
  lemma KeytabForNameIdempotent(name: string, pragma: string, asprintfOk: bool, pragma2: string, asprintfOk2: bool)
    requires pragma in {"FILE", "WRFILE"}
    requires KeytabForName(name, pragma, asprintfOk).Resolve?
    requires Utf8Length(KeytabForName(name, pragma, asprintfOk).name) <= MAX_KEYTAB_NAME_LEN
    ensures KeytabForName(KeytabForName(name, pragma, asprintfOk).name, pragma2, asprintfOk2) ==
            KeytabForName(name, pragma, asprintfOk)
  {
    var n := KeytabForName(name, pragma, asprintfOk).name;
    if n != name {
      assert n == (pragma + ":/") + name[1..];
      if pragma == "FILE" {
        assert n[..6] == "FILE:/";
      } else {
        assert n[..8] == "WRFILE:/";
      }
    }
  }

  /** A relative path is refused whatever the access mode. */
  lemma RelativeNameIsBad(name: string, pragma: string, asprintfOk: bool)
    requires Utf8Length(name) <= MAX_KEYTAB_NAME_LEN && !StartsWith(name, "FILE:/") && !StartsWith(name, "WRFILE:/")
    requires name == [] || name[0] != '/'
    ensures KeytabForName(name, pragma, asprintfOk) == Failed(KeytabBadName)
  {
  }

  /** kerberos_get_principal_from_service_hostname. The realm lookups are
      parameters: the realm of the host's DNS domain, the default realm of
      the credential cache (None for NULL), the configured realm, and
      whether copying the configured realm succeeded. */
  function PrincipalFromServiceHostname(service: string, remoteName: string,
                                        hostRealm: Option<string>, ccacheRealm: Option<string>,
                                        lpRealm: string, strdupOk: bool): (p: Option<string>)
    ensures p.Some? ==> p.value == service + "/" + remoteName + "@" + ChosenRealm(remoteName, hostRealm, ccacheRealm, lpRealm)
    ensures p.None? <==> !strdupOk && !Usable(if '.' in remoteName then hostRealm else ccacheRealm)
  {
    var realm := if '.' in remoteName then hostRealm else ccacheRealm;
    if !Usable(realm) && !strdupOk then None
    else Some(service + "/" + remoteName + "@" + ChosenRealm(remoteName, hostRealm, ccacheRealm, lpRealm))
  }

  /** A realm is usable when it is neither NULL nor empty. */
  predicate Usable(realm: Option<string>)
  {
    realm.Some? && realm.value != ""
  }

  /** The realm the principal ends with: a DNS name's realm for a name with
      a dot, the cache's realm for a NetBIOS name, the configured realm when
      that lookup gave nothing. */
  function ChosenRealm(remoteName: string, hostRealm: Option<string>, ccacheRealm: Option<string>,
                       lpRealm: string): (realm: string)
    ensures '.' in remoteName && Usable(hostRealm) ==> realm == hostRealm.value
    ensures '.' !in remoteName && Usable(ccacheRealm) ==> realm == ccacheRealm.value
    ensures !Usable(if '.' in remoteName then hostRealm else ccacheRealm) ==> realm == lpRealm
  {
    var realm := if '.' in remoteName then hostRealm else ccacheRealm;
    if Usable(realm) then realm.value else lpRealm
  }

  /** Splits "service/host@realm" at its first '/' and its last '@'. */
  function SplitPrincipal(p: string): Option<(string, string, string)>
  {
    if '/' !in p || '@' !in p then None
    else
      var slash := FirstIndex(p, '/');
      var at := LastIndex(p, '@');
      if slash < at then Some((p[..slash], p[slash + 1..at], p[at + 1..])) else None
  }

  function FirstIndex(s: string, c: char): (i: nat)
    requires c in s
    ensures i < |s| && s[i] == c && c !in s[..i]
  {
    if s[0] == c then 0 else 1 + FirstIndex(s[1..], c)
  }

  function LastIndex(s: string, c: char): (i: nat)
    requires c in s
    ensures i < |s| && s[i] == c && c !in s[i + 1..]
  {
    if s[|s| - 1] == c then |s| - 1 else LastIndex(s[..|s| - 1], c)
  }

  lemma {:induction false} FirstIndexIs(s: string, c: char, i: nat)
    requires i < |s| && s[i] == c && c !in s[..i]
    ensures FirstIndex(s, c) == i
    decreases i
  {
    if i > 0 {
      assert s[0] in s[..i];
      assert s[1..][..i - 1] == s[1..i];
      assert forall k :: 0 <= k < i - 1 ==> s[1..i][k] == s[..i][k + 1];
      FirstIndexIs(s[1..], c, i - 1);
    }
  }

  lemma {:induction false} LastIndexIs(s: string, c: char, i: nat)
    requires i < |s| && s[i] == c && c !in s[i + 1..]
    ensures LastIndex(s, c) == i
    decreases |s|
  {
    if i < |s| - 1 {
      assert s[|s| - 1] in s[i + 1..];
      var t := s[..|s| - 1];
      var u, v := t[i + 1..], s[i + 1..];
      assert forall j :: 0 <= j < |u| ==> u[j] == v[j];
      LastIndexIs(t, c, i);
    }
  }

  /** The principal is unambiguous when the service has no '/' and the realm
      no '@': splitting it gives back service, host name and realm. */
  lemma PrincipalRoundTrip(service: string, host: string, realm: string)
    requires '/' !in service && '@' !in realm
    ensures SplitPrincipal(service + "/" + host + "@" + realm) == Some((service, host, realm))
  {
    var p := service + "/" + host + "@" + realm;
    var s0 := |service|;
    var a0 := |service| + 1 + |host|;
    assert p[s0] == '/' && p[a0] == '@';
    assert p[..s0] == service;
    assert p[s0 + 1..a0] == host;
    assert p[a0 + 1..] == realm;
    FirstIndexIs(p, '/', s0);
    LastIndexIs(p, '@', a0);
  }

  /** What ads_cleanup_expired_creds decides: whether it asks the cache to
      remove the credentials, and what it returns. */
  datatype CleanupDecision = CleanupDecision(removeCalled: bool, result: bool)

  /** ads_cleanup_expired_creds with the clock reading `now` as a
      parameter: credentials expiring within ten seconds are removed unless
      the cache is a FILE cache (strequal ignores case). The removal's own
      outcome is ignored. */
  function CleanupExpiredCreds(endtime: int, now: int, ccType: string): (d: CleanupDecision)
    ensures d.result <==> endtime < now + 10 && !EqualIgnoreCase(ccType, "FILE")
    ensures d.removeCalled == d.result
  {
    if endtime >= now + 10 then CleanupDecision(false, false)
    else if EqualIgnoreCase(ccType, "FILE") then CleanupDecision(false, false)
    else CleanupDecision(true, true)
  }

  /** Credentials removed now would be removed at any later time too. */
  lemma CleanupIsMonotoneInTime(endtime: int, now: int, later: int, ccType: string)
    requires now <= later && CleanupExpiredCreds(endtime, now, ccType).result
    ensures CleanupExpiredCreds(endtime, later, ccType).result
  {
  }

  /** A FILE cache, in any case, is never touched. */
  lemma FileCachesAreKept(endtime: int, now: int)
    ensures !CleanupExpiredCreds(endtime, now, "file").removeCalled
    ensures !CleanupExpiredCreds(endtime, now, "FILE").removeCalled
  {
    assert Upper("file") == "FILE";
    assert Upper("FILE") == "FILE";
  }

  /** Linux's AF_INET and AF_INET6. */
  const AF_INET: int := 2
  const AF_INET6: int := 10

  /** The Kerberos address types setup_kaddr produces; None is the zeroed
      structure. */
  datatype KAddrType = AddrNone | AddrInet | AddrInet6

  /** The krb5_address: type and length (the contents point into the
      socket address and are not modelled). */
  datatype KAddress = KAddress(addrType: KAddrType, length: nat)

  /** setup_kaddr, Heimdal and MIT variants alike. `ipv6` says whether
      IPv6 support and the INET6 address type were both compiled in. */
  function SetupKaddr(family: int, ipv6: bool): (r: (bool, KAddress))
    ensures r.0 <==> family == AF_INET || (ipv6 && family == AF_INET6)
    ensures !r.0 ==> r.1 == KAddress(AddrNone, 0)
    ensures r.0 && family == AF_INET ==> r.1 == KAddress(AddrInet, 4)
    ensures r.0 && family == AF_INET6 ==> r.1 == KAddress(AddrInet6, 16)
  {
    var zeroed := KAddress(AddrNone, 0);
    if ipv6 && family == AF_INET6 then (true, KAddress(AddrInet6, 16))
    else if family == AF_INET then (true, KAddress(AddrInet, 4))
    else (false, zeroed)
  }

  /** A krb5_keyblock: the key bytes (None for a NULL contents pointer),
      their length and the encryption type. */
  class KeyBlock {
    var contents: Option<seq<uint8>>
    var length: nat
    var enctype: int

    constructor ()
      ensures contents == None && length == 0 && enctype == 0
    {
      contents := None;
      length := 0;
      enctype := 0;
    }
  }

  /** The no_salt branch of create_kerberos_key_from_string: the key is the
      password itself. On an allocation failure the contents pointer is left
      NULL and the rest of the key untouched. */
  method CreateNoSaltKey(key: KeyBlock, password: seq<uint8>, enctype: int, mallocOk: bool)
    returns (ret: int)
    modifies key
    ensures !mallocOk ==> ret == GssChecksum.ENOMEM && key.contents == None &&
                          key.length == old(key.length) && key.enctype == old(key.enctype)
    ensures mallocOk ==> ret == 0 && key.contents == Some(password) &&
                         key.length == |password| && key.enctype == enctype
  {
    if !mallocOk {
      key.contents := None;
      return GssChecksum.ENOMEM;
    }
    var copy := new uint8[|password|](i requires 0 <= i < |password| => password[i]);
    assert copy[..] == password;
    key.contents := Some(copy[..]);
    key.length := |password|;
    key.enctype := enctype;
    return 0;
  }
}
