# Samba test helpers, samba-tool dns and Kerberos glue, in Dafny

This project models the self-contained logic of three parts of the Samba
tree and proves properties of it.

- **tdb2 test suite.**
  - The fault-injection policy (`failtest_helper.c`): which recorded calls the injector may fail, and whether a failure was logged.
  - The log sink every test installs (`logging.c`): a message counter, the last message and a suppress switch.
  - The byte-level parts of two tdb1 tests. `run-tdb1-corrupt.c` provides the record validator, the bit flipper and the "every verifiable bit is detected" count. `run-tdb1-3G-file.c` provides the sparse file-expansion hook with its truncate / write / retry / error policy, and the traversal callback.
- **samba-tool dns** (`dns.py`).
  - The text formatting of booleans, enumerations, flag bitmaps and DNS_ADDR_ARRAY address lists.
  - The case-insensitive record-type and client-version names.
  - The record classes and the records the add, update and delete commands build.
  - The update command's property copy.
  - The OR-with-default filters of zonelist and query.
- **Kerberos glue** (`clikrb5.c`).
  - The GSS-API authenticator checksum field of section 1.1.1 of RFC 1964 (also section 4.1.1 of RFC 4121).
  - The explicit-name branch of `smb_krb5_open_keytab`.
  - The service principal `service/host@realm`.
  - The expired-credential cleanup decision.
  - `setup_kaddr`.
  - The no-salt branch of `create_kerberos_key_from_string`.

Each source file is modelled in one module, and `dns.py` and `clikrb5.c` in two each:

| file | module | models |
|---|---|---|
| `failtest_helper.dfy` | `FailtestHelper` | `lib/tdb2/test/failtest_helper.c` |
| `logging.dfy` | `Logging` | `lib/tdb2/test/logging.c` |
| `tdb1_corrupt.dfy` | `Tdb1Corrupt` | `lib/tdb2/test/run-tdb1-corrupt.c` |
| `tdb1_expand.dfy` | `Tdb1Expand` | `lib/tdb2/test/run-tdb1-3G-file.c` |
| `dns_format.dfy` | `DnsFormat` | the formatting helpers of `dns.py` |
| `dns_command.dfy` | `DnsCommand` | the argument and record handling of `dns.py` |
| `gss_checksum.dfy` | `GssChecksum` | `create_gss_checksum` in `clikrb5.c` |
| `krb5_glue.dfy` | `Krb5Glue` | the other `clikrb5.c` pieces |

Three further modules support them: `Wrappers` (Option and Result), `Bytes` and `Strings`. `Bytes` holds the unsigned widths, 32-bit wrap-around and little-endian SIVAL/SSVAL layout. `Strings` holds ASCII upper-casing and the `%d`/`%x` rendering, with a parser that reads the rendering back.

The source's form is kept:

- **State that the C code updates in place is a class:**
  - the log sink's globals are `TapLog`;
  - the fields of `struct tdb_context` that the expansion hook touches are `TdbContext`;
  - `krb5_data` is `Krb5Data`;
  - `krb5_keyblock` is `KeyBlock`.
- **In-place buffers stay arrays:**
  - the mapped database that `tdb1_flip_bit` XORs;
  - the `sizes[]` the validator accumulates into;
  - the checksum buffer that `create_gss_checksum` fills.
- **The source's loops are methods with loop invariants:**
  - `ExitCheckLog`;
  - `InsertKeys`;
  - `FlipAndCheckAll`;
  - `EnumString`, `BitmapString` and `DnsAddrArrayString`.

  `ExitCheckLog` states its result outright, by a quantified ensures over the history. `InsertKeys` is proved against closed forms: the stored records and the final sizes 15 and 25. `FlipAndCheckAll`, `EnumString`, `BitmapString` and `DnsAddrArrayString` are proved against a function that states what they return, and the lemmas are about those functions.

### Parameters

The operating system, the allocator, the Kerberos library and the clock are parameters:

- `ftruncate`/`pwrite` answers are `TruncateReply`/`WriteReply`;
- `malloc`/`talloc`/`strdup` success is a `bool`;
- `tdb_check` is a function from the database bytes to its verdict and accumulated sizes;
- the realm lookups are `Option<string>`;
- `time(NULL)` is `now`.

The errno and address-family values are Linux's: ENOSPC 28, EINVAL 22, ENOMEM 12, AF_INET 2, AF_INET6 10.

The dnsp/dnsserver constants are inputs: a name paired with a value, or a record of flag values. Flag words in the filters are sets of bit positions, so `|` is set union and a zero word is the empty set.

### Behaviour of the code that the model keeps

The model follows the code as written in each of these places:

- `dns_type_flag` has no AAAA branch. The add/update/delete synopses name AAAA, but their AAAA branches cannot run (`NoNameSelectsAaaa`).
- `strequal` compares without regard to case, so a cache of type "file" is also kept.
- `tdb1_off_t` is 32 bits, so `size+addition` and the write offset wrap.
- The IPv6 text of `dns_addr_array_string` prints each byte with an unpadded `%x`, so bytes 01 23 and 12 03 print alike. `Ipv6FormIsAmbiguous` records this single example; there is no IPv6 round trip.

## Model

| member | source | states |
|---|---|---|
| FailtestHelper.Strends | lib/tdb2/test/failtest_helper.c:9-15 | true exactly when postfix is a suffix of str; false whenever postfix is longer |
| FailtestHelper.Failmatch | lib/tdb2/test/failtest_helper.c:17-26 | true exactly when kind and line agree and the file is the site's file or `dir + "/" + file` |
| FailtestHelper.ExitCheckLog | lib/tdb2/test/failtest_helper.c:39-67 | passes iff a message was logged or no failed call is outside the exempt set (urandom open/read, initial malloc, non-blocking lock); at the first non-exempt failed call it returns exactly `tap_log_messages != 0`, every earlier call having been exempt or not failed |
| FailtestHelper.BlockRepeatFailures | lib/tdb2/test/failtest_helper.c:70-96 | DONT_FAIL whenever suppression is on; otherwise PROBE exactly for exempt calls, any mmap and any unlock, and OK for the rest |
| FailtestHelper.BlockRepeatFailuresUsesTailOnly | lib/tdb2/test/failtest_helper.c:75 | two histories ending in the same call get the same decision |
| FailtestHelper.LockCallsPolicy | lib/tdb2/test/failtest_helper.c:28-37 | `is_nonblocking_lock` (F_SETLK) excuses a failure in exit_check_log and makes block_repeat_failures probe; `is_unlock` (F_UNLCK) only makes it probe, so a failed blocking unlock at an unknown site must have been logged |
| FailtestHelper.ExemptCallsAreProbed | lib/tdb2/test/failtest_helper.c:43-60 | every call whose failure exit_check_log excuses is failed only once (probed) |
| Logging.Inc32 | lib/tdb2/test/logging.c:6 | the unsigned counter increments by one and wraps to 0 after 2^32-1 |
| Logging.Step | lib/tdb2/test/logging.c:16-30 | one tap_log_fn call: nothing when suppressed, otherwise the counter increments (wrapping) and log_last becomes the message, or NULL when strdup fails; prefix and suppress flag are only read |
| Logging.Run | lib/tdb2/test/logging.c:16-30 | a sequence of calls never changes log_prefix or suppress_logging |
| Logging.RunAppend | lib/tdb2/test/logging.c:16-30 | one more call after a sequence is one more step, so successive Log calls build up Run |
| Logging.TapLog.constructor | lib/tdb2/test/logging.c:6-9 | the globals start at 0, "", NULL and false |
| Logging.TapLog.Log | lib/tdb2/test/logging.c:16-30 | suppressed: nothing changes; otherwise the counter increments, the last message becomes this message (NULL if strdup fails), and prefix and suppress flag are untouched |
| Logging.SuppressedRunChangesNothing | lib/tdb2/test/logging.c:21-22 | with logging suppressed, any sequence of calls leaves the state as it was |
| Logging.RunCountsEveryMessage | lib/tdb2/test/logging.c:26-29 | below the wrap-around, n calls add exactly n to the counter and leave the last of them as log_last (NULL if its copy failed) |
| Logging.RunIsMonotone | lib/tdb2/test/logging.c:29 | the counter never decreases over calls that stay below 2^32 |
| Tdb1Corrupt.KeyAccepted | lib/tdb2/test/run-tdb1-corrupt.c:11-14 | a key is accepted exactly when it is a prefix of "hello" |
| Tdb1Corrupt.AcceptedKeys | lib/tdb2/test/run-tdb1-corrupt.c:11-14 | the accepted keys are exactly the six prefixes of "hello", the empty one included |
| Tdb1Corrupt.Check | lib/tdb2/test/run-tdb1-corrupt.c:7-24 | returns 0 iff the key is a prefix of "hello" and the data is "world"; then it adds the key and data lengths to sizes[0] and sizes[1], and otherwise it leaves sizes untouched; sizes end where a one-record CheckAll traversal ends |
| Tdb1Corrupt.CheckAll | lib/tdb2/test/run-tdb1-corrupt.c:7-24 | check over every record of a traversal, each with its own key and data: when every record is refused the sizes stay as they were |
| Tdb1Corrupt.CheckAllSkipsRefused | lib/tdb2/test/run-tdb1-corrupt.c:7-24 | a refused record anywhere in the traversal changes nothing: the sizes are those of the traversal without it |
| Tdb1Corrupt.CheckAllAppend | lib/tdb2/test/run-tdb1-corrupt.c:7-24 | a traversal over one more record ends where one more call of check, started from the sizes so far, ends |
| Tdb1Corrupt.FlipBit | lib/tdb2/test/run-tdb1-corrupt.c:26-41 | the buffer becomes byte `bit/8` XORed with `1 << bit%8`, and nothing else |
| Tdb1Corrupt.FlipChangesOneByte | lib/tdb2/test/run-tdb1-corrupt.c:28-32 | a flip changes byte bit/8 and leaves every other byte unchanged |
| Tdb1Corrupt.FlipTwiceRestores | lib/tdb2/test/run-tdb1-corrupt.c:81-87 | flipping the same bit twice restores the buffer |
| Tdb1Corrupt.FlipsAreDistinct | lib/tdb2/test/run-tdb1-corrupt.c:80-81 | different bit numbers give different corrupted buffers, so every trial tests a new corruption |
| Tdb1Corrupt.InsertKeys | lib/tdb2/test/run-tdb1-corrupt.c:54-62 | stores the records "h" … "hello", each with data "world", and ends with ksize 15 and dsize 25 |
| Tdb1Corrupt.CleanDatabaseMatchesExpectedSizes | lib/tdb2/test/run-tdb1-corrupt.c:21-22 | checking the five stored records accumulates exactly (15, 25) |
| Tdb1Corrupt.Verifiable | lib/tdb2/test/run-tdb1-corrupt.c:66-77 | the verifiable byte count covers at least the key, data and five record headers with tailers |
| Tdb1Corrupt.Tdb1ExpectedCount | lib/tdb2/test/run-tdb1-corrupt.c:66-77 | with tdb1's layout (9-byte magic, 4-byte words and offsets, 24-byte record) the sum is 242 bytes, so 1936 flips |
| Tdb1Corrupt.FlipAndCheckAll | lib/tdb2/test/run-tdb1-corrupt.c:80-88 | counts exactly the bit flips whose check reports corruption or wrong sizes, and leaves the map as it found it |
| Tdb1Corrupt.DetectionCountIsEightPerByte | lib/tdb2/test/run-tdb1-corrupt.c:89-90 | if a flip is detected exactly when it hits a verifiable byte, each verifiable byte contributes CHAR_BIT detections |
| Tdb1Corrupt.PerfectCheckerPasses | lib/tdb2/test/run-tdb1-corrupt.c:89-90 | a checker that detects exactly the flips of verifiable bytes makes `corrupt == verifiable * CHAR_BIT` hold |
| Tdb1Expand.FinalWrite | lib/tdb2/test/run-tdb1-3G-file.c:18-22 | the second write's result counts only when the first wrote zero bytes |
| Tdb1Expand.ExpandMessage | lib/tdb2/test/run-tdb1-3G-file.c:28-31 | the diagnostic's number reads back as the 32-bit target size |
| Tdb1Expand.ExpandMessageAsWritten | lib/tdb2/test/run-tdb1-3G-file.c:28-31 | the `%d` message is the corrected message for every target below 2 GiB |
| Tdb1Expand.AsWrittenMessageShowsNegativeSize | lib/tdb2/test/run-tdb1-3G-file.c:29-30 | for targets of 2 GiB and above, the `%d` message names a negative size; the corrected one names a non-negative one |
| Tdb1Expand.TdbContext.constructor | lib/tdb2/test/run-tdb1-3G-file.c:7-9 | a writable or read-only handle with no error, no traversal and no file operations yet |
| Tdb1Expand.TdbContext.WriteZeroByte | lib/tdb2/test/run-tdb1-3G-file.c:17-18 | one pwrite of a zero byte: its result, its errno, and how far it extends the file |
| Tdb1Expand.TdbContext.ExpandFileSparse | lib/tdb2/test/run-tdb1-3G-file.c:7-37 | read-only or read-traversal: RDONLY, -1 and no file operation. Truncate success: 0 and no write. Otherwise one zero byte at size+addition-1, retried only after a zero-length write; two zero writes set ENOSPC; any final result but 1 logs an IO error and returns -1 with the file unchanged |
| Tdb1Expand.TestTraverse | lib/tdb2/test/run-tdb1-3G-file.c:47-56 | all four checks pass iff the key is "hi" and the data equals the expected data |
| DnsFormat.BoolString | source4/scripting/python/samba/netcmd/dns.py:42-49 | 0 is FALSE, 1 is TRUE, anything else UNKNOWN with its hex value |
| DnsFormat.BoolStringInjective | source4/scripting/python/samba/netcmd/dns.py:42-49 | distinct flags give distinct text |
| DnsFormat.UnknownText | source4/scripting/python/samba/netcmd/dns.py:48 | the text starts "UNKNOWN (0x", ends with ")", and has a '-' after the prefix exactly for negative values |
| DnsFormat.UnknownTextReadsBack | source4/scripting/python/samba/netcmd/dns.py:48 | the hexadecimal inside the parentheses reads back as the value's magnitude, followed by ")" |
| DnsFormat.UnknownTextInjective | source4/scripting/python/samba/netcmd/dns.py:48 | the UNKNOWN text determines the value, negative values included |
| DnsFormat.FirstMatch | source4/scripting/python/samba/netcmd/dns.py:53-56 | the position of the first definition whose constant equals the value; None iff none does |
| DnsFormat.EnumString | source4/scripting/python/samba/netcmd/dns.py:51-59 | returns the first matching name, or the UNKNOWN text if none matches |
| DnsFormat.EnumTextNamesEachConstant | source4/scripting/python/samba/netcmd/dns.py:51-59 | with distinct constants every listed constant prints as its own name |
| DnsFormat.EnumTextIgnoresRepeatedDefinition | source4/scripting/python/samba/netcmd/dns.py:51-59 | inserting a copy of an earlier definition changes no result |
| DnsFormat.ZoneUpdateStringAsWritten | source4/scripting/python/samba/netcmd/dns.py:86-89 | the list as written: OFF prints as its name, SECURE (when it differs from OFF) as its name, and every other value, UNSECURE included, as UNKNOWN |
| DnsFormat.ZoneUpdateString | source4/scripting/python/samba/netcmd/dns.py:86-89 | the corrected list OFF, UNSECURE, SECURE: each value prints as the first of the three it equals, and any other value as UNKNOWN |
| DnsFormat.ZoneUpdateAsWrittenAgreesElsewhere | source4/scripting/python/samba/netcmd/dns.py:86-89 | with distinct constants, the list as written prints every value but UNSECURE as the corrected list does |
| DnsFormat.ZoneUpdateAsWrittenMissesUnsecure | source4/scripting/python/samba/netcmd/dns.py:86-89 | as written, DNS_ZONE_UPDATE_UNSECURE prints as UNKNOWN |
| DnsFormat.ZoneUpdateStringNamesEveryMode | source4/scripting/python/samba/netcmd/dns.py:86-89 | with the corrected list each of OFF, UNSECURE and SECURE prints as its name, any other value as UNKNOWN |
| DnsFormat.BitmapString | source4/scripting/python/samba/netcmd/dns.py:61-68 | returns the in-order words 'NAME ' of the flags that intersect the value, or NONE |
| DnsFormat.JoinedAppend | source4/scripting/python/samba/netcmd/dns.py:63-65 | the words of a concatenated list are the words of each part |
| DnsFormat.JoinedEmptyIff | source4/scripting/python/samba/netcmd/dns.py:63-66 | no words exactly when no flag intersects the value |
| DnsFormat.JoinedEndsInSpace | source4/scripting/python/samba/netcmd/dns.py:65 | non-empty words end in a space |
| DnsFormat.BitmapNoneIff | source4/scripting/python/samba/netcmd/dns.py:61-68 | NONE exactly when no listed flag intersects the value |
| DnsFormat.DnsAddrArrayString | source4/scripting/python/samba/netcmd/dns.py:123-137 | nothing for a missing array; otherwise one string per address, in order |
| DnsFormat.AddrEntryString | source4/scripting/python/samba/netcmd/dns.py:128-135 | one entry's text is AddrString of its MaxSa: the IPv4 or IPv6 text chosen by the family byte, UNKNOWN for any other family |
| DnsFormat.UnknownFamilyIff | source4/scripting/python/samba/netcmd/dns.py:128-135 | UNKNOWN exactly for families other than 0x02 and 0x17 |
| DnsFormat.Ipv4TextRoundTrip | source4/scripting/python/samba/netcmd/dns.py:129-130 | the '%d.%d.%d.%d (%d)' text parses back to its five numbers |
| DnsFormat.Ipv4RoundTrip | source4/scripting/python/samba/netcmd/dns.py:128-130 | the IPv4 text parses back to bytes 4-7 and byte 3 |
| DnsCommand.DnsTypeFlag | source4/scripting/python/samba/netcmd/dns.py:139-157 | an accepted name is, upper-cased, the name of the type returned; otherwise the CommandError message |
| DnsCommand.DnsTypeFlagInvertsTypeName | source4/scripting/python/samba/netcmd/dns.py:139-157 | every named type is reached from its name in any case |
| DnsCommand.DnsTypeFlagAcceptsIff | source4/scripting/python/samba/netcmd/dns.py:141-156 | accepted exactly for A, NS, CNAME, SOA, MX, SRV and ALL, in any case |
| DnsCommand.NoNameSelectsAaaa | source4/scripting/python/samba/netcmd/dns.py:721-724 | no name, "AAAA" included, selects AAAA, so the AAAA branches cannot run |
| DnsCommand.DnsClientVersion | source4/scripting/python/samba/netcmd/dns.py:159-169 | W2K, DOTNET and LONGHORN in any case select their version, each iff; anything else is the CommandError |
| DnsCommand.ZoneListTypeId | source4/scripting/python/samba/netcmd/dns.py:609-612 | the W2K zone answer type exactly for the W2K client |
| DnsCommand.ARecord | source4/scripting/python/samba/netcmd/dns.py:360-368 | type A, flags rank OR node_flag, the given serial and ttl (defaults 1 and 900), the address as data |
| DnsCommand.AaaaRecord | source4/scripting/python/samba/netcmd/dns.py:370-378 | as ARecord with type AAAA |
| DnsCommand.CNameRecord | source4/scripting/python/samba/netcmd/dns.py:380-391 | type CNAME and a name whose len is the length of its string |
| DnsCommand.NsRecord | source4/scripting/python/samba/netcmd/dns.py:393-404 | type NS and a name whose len is the length of its string |
| DnsCommand.SoaRecordAsWritten | source4/scripting/python/samba/netcmd/dns.py:406-424 | the record as written is the corrected record with its minimum TTL zeroed, whatever `minimum` is passed |
| DnsCommand.SoaRecordAsWrittenDropsMinimum | source4/scripting/python/samba/netcmd/dns.py:406-424 | the record as written has minimum TTL 0 although the default is 3600 |
| DnsCommand.SoaRecord | source4/scripting/python/samba/netcmd/dns.py:406-424 | type SOA, ttl 3600 and AUTH_ZONE_ROOT by default, and the SOA serial equal to the record serial |
| DnsCommand.SrvRecord | source4/scripting/python/samba/netcmd/dns.py:426-440 | type SRV with priority 0 and weight 100 by default, and the port and target given |
| DnsCommand.BuildRecord | source4/scripting/python/samba/netcmd/dns.py:721-730 | a record exactly for A, AAAA, CNAME and NS, with the class defaults; otherwise the "not supported" message |
| DnsCommand.CommandRecord | source4/scripting/python/samba/netcmd/dns.py:719-730 | dns_type_flag's error comes first; otherwise the record BuildRecord makes |
| DnsCommand.CommandRecordSupportedIff | source4/scripting/python/samba/netcmd/dns.py:763-773 | add, update and delete build a record exactly for A, CNAME and NS in any case, carrying the command-line data |
| DnsCommand.WithCopiedProperties | source4/scripting/python/samba/netcmd/dns.py:784-787 | the new record takes flags, serial, ttl and timestamp from the match and keeps its own type and data |
| DnsCommand.CopiedPropertiesForgetDefaults | source4/scripting/python/samba/netcmd/dns.py:784-787 | the new record's own defaults do not matter, and copying from the same type and data gives the match back |
| DnsCommand.OrChosenIff | source4/scripting/python/samba/netcmd/dns.py:575-590 | a bit is in the OR exactly when some chosen flag has it |
| DnsCommand.FlagFilter | source4/scripting/python/samba/netcmd/dns.py:573-593 | every chosen flag's bits are in the filter, and every bit in it is the default's or a chosen flag's |
| DnsCommand.FlagFilterIff | source4/scripting/python/samba/netcmd/dns.py:592-593 | a non-zero OR is the filter; with nothing chosen the filter is the default |
| DnsCommand.ZoneRequestFilter | source4/scripting/python/samba/netcmd/dns.py:573-593 | each of the eight chosen categories is requested, and nothing but chosen categories and PRIMARY is |
| DnsCommand.ZoneRequestFilterDefaultsToPrimary | source4/scripting/python/samba/netcmd/dns.py:573-593 | no option and --primary alone both ask for exactly the PRIMARY zones |
| DnsCommand.QuerySelectFlags | source4/scripting/python/samba/netcmd/dns.py:645-662 | each of the seven chosen views is selected, and nothing but chosen views and AUTHORITY is |
| DnsCommand.QuerySelectFlagsDefaultsToAuthority | source4/scripting/python/samba/netcmd/dns.py:661-662 | no option selects exactly the AUTHORITY data |
| GssChecksum.ChecksumBytes | source3/libsmb/clikrb5.c:298-343 | 24 bytes, plus 4 + n when there are n > 0 delegated bytes |
| GssChecksum.ParseChecksumRoundTrip | source3/libsmb/clikrb5.c:317-341 | the field reads back as Lgth 16, sixteen zero bytes, the flags, then DlgOpt 1, Dlgth n and the delegated bytes |
| GssChecksum.ChecksumBytesInjective | source3/libsmb/clikrb5.c:317-341 | different flags or delegations give different fields |
| GssChecksum.Krb5Data.constructor | source3/libsmb/clikrb5.c:295-296 | a krb5_data whose length is that of its bytes |
| GssChecksum.PutLe32 | source3/libsmb/clikrb5.c:318 | SIVAL writes the 4 little-endian bytes at the offset and nothing else |
| GssChecksum.PutLe16 | source3/libsmb/clikrb5.c:334-335 | SSVAL writes the low 16 bits as 2 little-endian bytes and nothing else |
| GssChecksum.CreateGssChecksum | source3/libsmb/clikrb5.c:295-345 | EINVAL iff the size wraps 32 bits, with the data unchanged; ENOMEM on allocation failure; otherwise 0, with in_data replaced by the checksum field holding the old data |
| Bytes.Le32RoundTrip | source3/libsmb/clikrb5.c:318 | the bytes SIVAL stores read back as the value |
| Krb5Glue.Pragma | source3/libsmb/clikrb5.c:1016-1033 | WRFILE exactly for write access on a library that has it, otherwise FILE |
| Krb5Glue.OpenKeytab | source3/libsmb/clikrb5.c:1006-1060 | read-only with no name: the default keytab; allocation failure: ENOMEM; write access with no name: the default-name search; a name: KeytabForName |
| Strings.Utf8Length | source3/libsmb/clikrb5.c:1037 | `strlen` of a UTF-8 name: between one and four bytes per character, and exactly one per character for an ASCII name |
| Krb5Glue.KeytabForName | source3/libsmb/clikrb5.c:1037-1059 | a name longer than 1100 bytes is NOTENUFSPACE; within the limit a FILE:/ or WRFILE:/ name resolves verbatim, an absolute path resolves to pragma:path (ENOMEM if building it fails), and anything else is BADNAME |
| Krb5Glue.ResolvedNamesAreFileKeytabs | source3/libsmb/clikrb5.c:1042-1059 | everything resolved is a FILE:/ or WRFILE:/ keytab and ends with the requested name; WRFILE is added only for write access on a library that has it |
| Krb5Glue.KeytabForNameIdempotent | source3/libsmb/clikrb5.c:1042-1046 | a resolved name, requested again, resolves to itself |
| Krb5Glue.RelativeNameIsBad | source3/libsmb/clikrb5.c:1048-1051 | a name without a FILE:/ or WRFILE:/ prefix that is not an absolute path ("Foo", "FILE:rel", the empty name) is BADNAME whatever the pragma |
| Krb5Glue.PrincipalFromServiceHostname | source3/libsmb/clikrb5.c:1546-1582 | service/remote_name@realm; NULL only when the lookup gave nothing and copying the configured realm failed |
| Krb5Glue.ChosenRealm | source3/libsmb/clikrb5.c:1553-1574 | the host's realm for a DNS name, the cache's realm otherwise, the configured realm when that is NULL or empty |
| Krb5Glue.PrincipalRoundTrip | source3/libsmb/clikrb5.c:1576-1579 | splitting the principal at its first '/' and last '@' gives back service, host and realm |
| Krb5Glue.CleanupExpiredCreds | source3/libsmb/clikrb5.c:233-268 | true, with removal requested, exactly when endtime < now + 10 and the cache is not FILE; the removal's outcome does not matter |
| Krb5Glue.CleanupIsMonotoneInTime | source3/libsmb/clikrb5.c:247-248 | credentials removed now would be removed at any later time |
| Krb5Glue.FileCachesAreKept | source3/libsmb/clikrb5.c:255-258 | a FILE cache, in any case, is never touched |
| Krb5Glue.SetupKaddr | source3/libsmb/clikrb5.c:84-123 | true iff AF_INET, or AF_INET6 with IPv6 support; INET with length 4, INET6 with length 16, else the zeroed address |
| Krb5Glue.KeyBlock.constructor | source3/libsmb/clikrb5.c:131 | an empty keyblock |
| Krb5Glue.CreateNoSaltKey | source3/libsmb/clikrb5.c:142-151 | the key is a copy of the password with its length and the enctype; ENOMEM leaves the contents NULL |

## Left out

- The storage engine itself is not part of this model. This covers `tdb_open`, `store`, `fetch`, `traverse`, `check`, transactions, `tdb1_expand`, hashing and locking. The tests' own assertions about it are not reconstructed either.
- `lib/tdb2/test/run-tdb1-nested-traverse.c` is not modelled: its subject is lock contention between processes.
- `lib/tdb2/test/run-tdb1-wronghash-fail.c` is not modelled: its hash functions are foreign.
- `libcli/auth/krb5_wrap.h` holds only accessor macros and prototypes.
- Operating system calls and output:
  - `ftruncate`, `pwrite`, `malloc`, `talloc` and `strerror` are parameters.
  - `err()` aborts, `abort()` and the TAP `ok1`/`diag` output are not modelled.
  - The `pread`/`pwrite` fallback of `tdb1_flip_bit` is the same byte array as the mapped case.
- Tdb1Expand.TdbContext.ExpandFileSparse: `tdb_logerr` is taken to forward its message to the log sink unchanged; it is not part of this model.
- Tdb1Expand.TdbContext.ExpandFileSparse: it logs the corrected `%u` message (`ExpandMessage`), not the source's `%d` one. The two agree below 2 GiB (`ExpandMessageAsWritten`). From 2 GiB up, the source prints a negative size (`AsWrittenMessageShowsNegativeSize`); a 3 GiB target is one such case.
- Tdb1Corrupt.FlipAndCheckAll:
  - `tdb_check` is an oracle on the database bytes.
  - The expected total is therefore proved only for an oracle that detects exactly the verifiable bytes (`PerfectCheckerPasses`).
  - Which bytes are verifiable depends on the engine.
- Tdb1Corrupt.Verifiable: its contract states a lower bound; the exact value is proved for tdb1's layout in `Tdb1ExpectedCount`.
- Tdb1Expand.TestTraverse: a `memcmp` that would read past a shorter buffer is modelled as a mismatch.
- dns.py network and printing:
  - RPC (`dns_connect`, the `Dnssrv*` calls) is not modelled.
  - The `print_*` reporting through `outf.write` is not modelled.
  - `dns_record_match` is not modelled: its equality is on binding objects.
  - `ip4_array_string` is not modelled: it uses native-endian `pack('i')` and `inet_ntoa`.
  - The other `*_string` wrappers are `EnumString`/`BitmapString` applied to their lists. Only `zone_update_string` is modelled on its own.
- DnsFormat.DnsAddrArrayString: AddrCount is taken to equal the number of entries in AddrArray.
- Python's `upper()` is modelled for ASCII letters only; other characters are unchanged.
- Krb5Glue.CleanupExpiredCreds: Samba's `strequal` folds case with its Unicode tables, but the model's `EqualIgnoreCase` folds ASCII letters only. The cache type names the Kerberos library returns ("FILE", "MEMORY" and the like) are ASCII, so the two agree on them.
- `strchr_m` is modelled as a search over characters; multibyte handling is not modelled.
- Krb5Glue.KeytabForName: the name is taken to be held in UTF-8, the default unix charset, so its byte length is `Utf8Length`; other charsets are not modelled, and a NUL character inside the name, where a C string would end, is not modelled either.
- The dns records are values, not binding objects. The uint8 length of DNS_RPC_NAME is not modelled: `len` is the unbounded length.
- Krb5Glue.OpenKeytab: the search over the default keytab names is not modelled. It depends on `krb5_kt_default_name` and `next_token_talloc`, which are not shown.
- Krb5Glue.PrincipalFromServiceHostname: a failure of the final `talloc_asprintf` is not modelled.
- Clock, Kerberos library and ASN.1 code:
  - `time(NULL)` is the parameter `now`; `time_t` overflow in `now + 10` is not modelled.
  - The Kerberos library calls of `clikrb5.c` are not modelled. These are ticket acquisition, renewal, error packets, enctype strings and the salted key path.
  - `unwrap_edata_ntstatus` is not modelled.
- Krb5Glue.SetupKaddr: the address contents point into the socket address; they are not modelled, only type and length.

## Findings

| source | as written | input that shows it | evidently intended | confidence | as-written member | corrected member |
|---|---|---|---|---|---|---|
| source4/scripting/python/samba/netcmd/dns.py:86-89 | the list names DNS_ZONE_UPDATE_SECURE twice and DNS_ZONE_UPDATE_UNSECURE never | the value of DNS_ZONE_UPDATE_UNSECURE prints as UNKNOWN | the list OFF, UNSECURE, SECURE | not executed | DnsFormat.ZoneUpdateAsWrittenMissesUnsecure | DnsFormat.ZoneUpdateStringNamesEveryMode |
| source4/scripting/python/samba/netcmd/dns.py:406-424 | SOARecord accepts `minimum` but never stores it | `SOARecord(mname, rname)` has minimum TTL 0, not 3600 | `soa.dwMinimumTtl = minimum` | not executed | DnsCommand.SoaRecordAsWrittenDropsMinimum | DnsCommand.SoaRecord |
| lib/tdb2/test/run-tdb1-3G-file.c:28-31 | `"%d"` prints the unsigned size+addition | a 3 GiB target is reported as a negative size | `"%u"` | not executed | Tdb1Expand.AsWrittenMessageShowsNegativeSize | Tdb1Expand.ExpandMessage |
