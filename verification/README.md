# Bluetooth security analyzer — a Dafny model

This project models the core of a Bluetooth Low Energy capture analyzer.
The model covers two parts of that analyzer:

- **The protocol field decoders** (`protocol_decoder_functions.py`). These
  turn the hexadecimal fields of L2CAP, SMP (Security Manager Protocol) and
  ATT (Attribute Protocol) packets into readable labels: authentication
  requirement flags, IO capability, key distribution flags, ATT opcodes and
  attribute permissions.
- **The session object `BluetoothSecurityAnalyzer`** (`Babbi.py`). It holds:
  - a registry of devices, keyed by lower-case address;
  - a deduplicated ledger of vulnerabilities, each with a severity from 1 to 5;
  - the connection and pairing phases seen for each device;
  - the set of devices that spoke SMP;
  - a timeline of security events;
  - a graph of communication partners.

  The per-packet handlers update that state: BLE advertising, HCI events,
  SMP commands and GATT operations. At the end of a capture, passes link
  devices that share a connection handle, add the findings of the
  end-of-capture checks, compute the 0–100 risk score and build the
  authentication summary.

The project has six modules:

- `Wrappers` holds `Option`.
- `Text` holds the Python string primitives the analyzer relies on:
  `int(s, 16)`, `int(s)`, `str.lower()`, `str.replace`, substring tests and
  `str(n)`.
- `ProtocolDecoders` holds the six decoders.
- `Ledger` holds `_register_vulnerability` as a value-level function and the
  risk score.
- `SecurityState` holds the per-device records and the pure judgements
  derived from them.
- `Analyzer` holds the class `SecurityAnalyzer`. Its fields are the
  analyzer's dictionaries, lists and sets, and its methods are the handlers.
  Each handler is proved against specification functions of the old state.
  The exceptions are the three packet-level dispatchers named under
  "## Left out", which state only part of their effect.

A Python exception that escapes a handler is the method's `raised` result.
Examples are a `KeyError` from indexing `self.devices` with an address that
was never registered, or a `ValueError` from `int()`. The changes made before
the raise remain, as they do when the per-packet `except` swallows the
exception. Python dictionaries iterate in insertion order, and that order
decides the order of the ledger. So the class keeps `deviceOrder` beside the
`devices` map.

## Model

| member | source | states |
|---|---|---|
| Text.ToLower | Babbi.py:902-903 | Lower-casing keeps the length, leaves no upper-case letter, changes only upper-case letters and leaves lower-case text unchanged |
| Text.ToLowerIdempotent | Babbi.py:903 | Normalising an address twice gives the same key as normalising it once |
| Text.RemoveAll | protocol_decoder_functions.py:152-153 | `replace('0x', '')` never lengthens the text and is the identity when the pattern does not occur |
| Text.CleanIsNoOccurrence | protocol_decoder_functions.py:152-153 | A text is free of the two-character pattern exactly when the pattern does not occur in it |
| Text.RemoveAllAfterClean | protocol_decoder_functions.py:152-153 | Stripping scans left to right: a clean prefix is kept and the first occurrence after it is removed before the rest is stripped |
| Text.ParseHex | protocol_decoder_functions.py:29-30 | `int(s, 16)` succeeds exactly when, after an optional `0x` marker, one or more hex digits remain; the value read is the base-16 value of those digits, below 16^digits; the empty string fails |
| Text.ParseHexMarker | protocol_decoder_functions.py:30 | `0x`, `0X` and no marker read the same digits as the same number |
| Text.ParseHexTwoDigits | Babbi.py:758-759 | A two-digit field such as `0x04` reads as 16·hi + lo |
| Text.ParseDec | Babbi.py:861-862 | `int(s)` succeeds exactly when the text is an optional sign followed by one or more decimal digits; a negative result needs a leading minus sign |
| Text.IntToString | Babbi.py:865-867 | `str(i)` is non-empty and starts with `-` exactly when i is negative |
| Text.IntToStringRoundTrip | Babbi.py:865-867 | `int(str(i)) == i` for every integer |
| Text.IntToStringInjective | Babbi.py:865-867 | Different key sizes give different weak-key descriptions, so the ledger keeps one finding per size |
| ProtocolDecoders.L2capFlagsOf | protocol_decoder_functions.py:32-49 | Bonding is "Bonding" or "No Bonding" by bit 0; MITM and SC are "Required" when bits 1–2 are set and "Not Required" when clear; keypress is "Used"/"Not Used" by bit 3; CT2 is "Supported"/"Not Supported" by bit 4 |
| ProtocolDecoders.DecodeL2capFlags | protocol_decoder_functions.py:19-58 | Empty input gives all "Unknown"; unparsable input gives all "Error parsing" with the raw text kept; otherwise the bit labels of the parsed value |
| ProtocolDecoders.SmpAuthOf | protocol_decoder_functions.py:92-114 | Bonding comes from bits 0–1, including the two "Reserved (0x0N)" labels; MITM and SC are "Required"/"Not Required" by bits 2–3, keypress "Used"/"Not Used" by bit 4, CT2 "Supported"/"Not Supported" by bit 5 |
| ProtocolDecoders.DecodeSmpAuthRequirements | protocol_decoder_functions.py:79-123 | Same three-way split (Unknown / Error parsing / labels of the parsed value) for the SMP layout |
| ProtocolDecoders.SmpAuthDependsOnLowSixBits | protocol_decoder_functions.py:92-105 | Values that agree modulo 64 get identical labels, so bits 6–7 are ignored |
| ProtocolDecoders.SmpAuthStringsAgreeModulo64 | protocol_decoder_functions.py:89-114 | Two parsable strings whose values agree in the low six bits decode to identical labels |
| ProtocolDecoders.L2capAndSmpDisagreeOn0x04 | protocol_decoder_functions.py:33-105 | The same byte `0x04` means "MITM required" to the SMP decoder but "SC required, MITM not required" to the L2CAP decoder |
| ProtocolDecoders.DecodeIoCapability | protocol_decoder_functions.py:136-155 | Empty input gives "Unknown"; otherwise the result is exactly the table entry for the text with every `0x` removed, and a text that is not a key gives "Unknown IO Capability (0x…)" |
| ProtocolDecoders.IoCapDecimalCodes | protocol_decoder_functions.py:136-141 | The single digits 0–4 decode to the five IO capabilities |
| ProtocolDecoders.IoCapPrefixedCodeIsUnknown | protocol_decoder_functions.py:142-155 | Every `0x` + two-hex-digit code is reported unknown, because stripping removes its prefix before lookup |
| ProtocolDecoders.JustWorksPrefixedCodeIsUnknown | protocol_decoder_functions.py:145-155 | In particular `0x03` (Just Works) is reported as an unknown capability |
| ProtocolDecoders.IoCapHexKeyReachableAfterStripping | protocol_decoder_functions.py:152-155 | A `0x` key can still be hit when stripping recreates it: `00xx03` decodes as NoInputNoOutput |
| ProtocolDecoders.KeyDistributionOf | protocol_decoder_functions.py:180-192 | Bits 0–3 give the LTK, IRK, CSRK and link-key distribution labels when set and "No LTK", "No IRK", "No CSRK", "No BR/EDR Link Key" when clear; the raw text is kept |
| ProtocolDecoders.DecodeKeyDistribution | protocol_decoder_functions.py:168-200 | Unknown / Error parsing / the bit labels of the parsed value |
| ProtocolDecoders.KeyDistToggleChangesOneField | protocol_decoder_functions.py:180-190 | Flipping one of bits 0–3 changes exactly the label of that bit |
| ProtocolDecoders.DecodeAttOpcode | protocol_decoder_functions.py:264-285 | The opcode always carries `0x` (added only when missing); the type is Read, Write or Notification/Indication exactly when the normalised opcode is in that table, and Other otherwise; a listed opcode has its table description; an unlisted one gets "Unknown Opcode: …" |
| ProtocolDecoders.OpcodeClass | protocol_decoder_functions.py:272-279 | The class is Read, Write or Notification/Indication exactly when the opcode is in that list, and Other exactly when it is in none |
| ProtocolDecoders.AttOpcodeIdempotent | protocol_decoder_functions.py:264-285 | Decoding the normalised opcode again gives the same result |
| ProtocolDecoders.AttOpcodeLowerCaseUnknown | protocol_decoder_functions.py:269-279 | Lookup is case-sensitive: `0x0a` is an unknown "Other" opcode |
| ProtocolDecoders.AttOpcodeUnprefixed | protocol_decoder_functions.py:266-279 | An opcode written without `0x`, such as `0A`, is prefixed and then found: it is a Read Response |
| ProtocolDecoders.PermissionsOf | protocol_decoder_functions.py:317-327 | Readable and writable are "Yes"/"No" by bits 0–1; each of the six authentication, authorization and encryption fields is "Required"/"Not Required" by its bit 2–7 |
| ProtocolDecoders.DecodeAttPermissions | protocol_decoder_functions.py:301-339 | Unknown / Error parsing / the bit labels of the parsed value |
| ProtocolDecoders.PermissionToggleChangesOneField | protocol_decoder_functions.py:317-326 | Flipping one of bits 0–7 changes exactly the label of that bit |
| Ledger.FindVulnerability | Babbi.py:918-921 | The duplicate scan finds an entry exactly when one with the same description and device is recorded |
| Ledger.Registered | Babbi.py:916-927 | After registering, the pair is recorded and the old ledger is a prefix; the ledger is unchanged exactly when the pair was already there; otherwise the new entry is appended last |
| Ledger.RegisteredRecords | Babbi.py:916-927 | After registering, a (description, device) pair is recorded exactly when it was recorded before or is the registered pair |
| Ledger.RegisteredKeepsLedger | Babbi.py:916-927 | Registering keeps the ledger free of duplicates and keeps every severity within 1..5 |
| Ledger.Register | Babbi.py:916-927 | The looping duplicate check followed by the append computes `Registered` |
| Ledger.RegisteredIdempotent | Babbi.py:918-921 | Registering the same pair again, with any severity, changes nothing; the first severity stays |
| Ledger.RegisterAll | Babbi.py:916-927 | Registering a list of findings keeps the old ledger as a prefix and adds at most one entry per finding |
| Ledger.RegisterAllSound | Babbi.py:916-927 | Every finding ends up recorded, and every added entry is one of the findings |
| Ledger.RegisterAllDeduplicated | Babbi.py:916-927 | A duplicate-free ledger stays duplicate-free |
| Ledger.RegisterAllSeverities | Babbi.py:916-927 | Severity bounds shared by the ledger and the findings hold afterwards |
| Ledger.RegisterAllAppend | Babbi.py:916-927 | Registering two lists one after the other is the same as registering their concatenation |
| Ledger.RegisterAllSnoc | Babbi.py:916-927 | Registering a list then one more finding is the same as registering the extended list |
| Ledger.SeveritySumBounds | Babbi.py:993-995 | With severities in lo..hi, the severity sum lies between lo·n and hi·n |
| Ledger.DeviceFactor | Babbi.py:998 | The device factor lies in 0..1 and is 1 from ten devices on |
| Ledger.RiskScore | Babbi.py:988-1002 | The score is 0 for an empty ledger and never above 100 |
| Ledger.RiskScoreNonNegative | Babbi.py:988-1002 | With valid severities the score is a percentage in 0..100 |
| Ledger.RiskScoreOfMaximalLedger | Babbi.py:993-1002 | A non-empty ledger of severity-5 findings scores exactly 100 |
| Ledger.RiskScoreExample | Babbi.py:993-1002 | Severities 5, 4, 3 with two devices give min(100, 80 · 1.2) = 96 |
| SecurityState.NewDevice | Babbi.py:905-912 | A fresh device record has no packets, no services and encryption off |
| SecurityState.NewConnState | Babbi.py:1201-1216 | A fresh connection record has no phase reached and an empty packet-number list for each of the five phases |
| SecurityState.NewPairState | Babbi.py:1250-1269 | A fresh pairing record has no phase reached, a list for each pairing phase and every key-exchange flag off |
| SecurityState.EventTypeDetermines | Babbi.py:1224-1229 | The event type string determines the kind of event and its phase or key step, so distinct events are never conflated |
| SecurityState.TypeClass | Babbi.py:1277-1282 | Connection events are typed `connection_…` and pairing events `pairing_…`; key events have short types that match neither prefix |
| SecurityState.ConnPhaseOfPdu | Babbi.py:338-359 | A PDU type maps to a connection phase exactly when it is 0, 2, 3 or 5, and never to connection complete |
| SecurityState.SmpCommandEncodings | Babbi.py:729-835 | Every handled SMP command code is recognised by its decimal spelling, and the codes below 10 also by `0x0N`, with the same meaning |
| SecurityState.SmpCommandRecognised | Babbi.py:730-835 | An opcode selects a handled command exactly when it is one of the sixteen spellings the handler compares against |
| SecurityState.SecurityRequestSpellings | Babbi.py:733-734 | Security request is `0x0b` or `11`, while the upper-case `0x0B` is not recognised |
| SecurityState.ServiceListsDisagree | Babbi.py:974-1037 | The health list of the assessment and the sensitive list of the vulnerability check differ: `183d` is only in the first, `1828` only in the second |
| SecurityState.ServiceFindings | Babbi.py:560-576 | A serial-port UUID gives the severity-2 serial finding exactly when it is a serial service; the severity-5 firmware finding appears exactly for a DFU UUID with the address set and not known to be encrypted; nothing else is found, and the serial finding comes first |
| SecurityState.AdvertisedServiceFindings | Babbi.py:424-433 | Every finding for the advertised UUIDs is about the advertising device |
| SecurityState.AdvertisedFindingSource | Babbi.py:424-433 | Every finding for the advertised UUIDs comes from the service check of one of them |
| SecurityState.AdvertisedFindingRaised | Babbi.py:424-433 | Every finding of the service check of any advertised UUID is among the findings |
| SecurityState.AdvertisedServiceFindingsMembers | Babbi.py:424-433 | A finding is raised for the advertised UUIDs exactly when the service check of some UUID raises it |
| SecurityState.SecurityLevel | Babbi.py:1529-1537 | Level ≥ 3 exactly when encrypted; 4 exactly when encrypted with MITM; 2 exactly when paired without encryption; 1 exactly when only connected; 0 exactly when nothing was established |
| SecurityState.SecurityLevelMonotone | Babbi.py:1529-1537 | Establishing more never lowers the security level |
| SecurityState.ConnectionEstablished | Babbi.py:1502-1507 | A connection counts as established exactly when a connection request or complete phase was recorded |
| SecurityState.IssuesOf | Babbi.py:1540-1544 | The issues of a device are exactly the ledger entries about that device, as (severity, description) |
| SecurityState.IssuesOfAppend | Babbi.py:1540-1544 | The issues of a concatenated ledger are the issues of each part in order |
| SecurityState.SummarizeDevice | Babbi.py:1484-1546 | The device summary has the device name (or "Unknown Device"), the encryption flag, the security level of its encryption, MITM, pairing and connection state, connection established exactly with a request or complete phase, pairing established exactly with a pairing confirm, the phases seen (without encryption enabled for pairing), the three key-exchange flags and the given issue list |
| SecurityState.CountEncrypted | Babbi.py:1476 | The number of encrypted devices never exceeds the number of devices |
| SecurityState.CountWithoutSmp | Babbi.py:1477 | The number of devices without SMP never exceeds the number of devices |
| SecurityState.Overall | Babbi.py:1472-1481 | Encrypted plus unencrypted devices equal the total; the SMP count is the size of the SMP-detected set |
| SecurityState.DistinctSize | Babbi.py:1472-1474 | A registry order without repetitions has as many entries as distinct addresses |
| SecurityState.CountEncryptedSize | Babbi.py:1476 | The encrypted count is the number of distinct listed devices with encryption on |
| SecurityState.CountWithoutSmpSize | Babbi.py:1477 | The count without SMP is the number of distinct listed devices without SMP |
| SecurityState.OverallCounts | Babbi.py:1472-1481 | The totals are the sizes of the device set, of the encrypted and unencrypted subsets and of the subset without SMP |
| SecurityState.CountEncryptedPositive | Babbi.py:1476 | The encrypted count is positive exactly when some registered device has encryption on |
| SecurityState.HealthServiceAdvice | Babbi.py:1035-1040 | An encrypted device gets no health-service advice; otherwise at most one advice per service, each starting with the health prefix |
| SecurityState.HealthServiceAdviceMembers | Babbi.py:1035-1040 | A text is health advice exactly when the device is unencrypted and it is the health prefix followed by one of its health services |
| SecurityState.AdviceIsNotHealthAdvice | Babbi.py:1014-1040 | The fixed recommendations are pairwise different and none looks like health-service advice |
| SecurityState.AssessDeviceSecurity | Babbi.py:1004-1042 | The encryption status follows the device flag, pairing security follows the IO capability, protocol security stays empty, and there are at most 4 + |services| recommendations |
| SecurityState.KeySizeAdvice | Babbi.py:1028-1029 | A key-size recommendation is given exactly when a key size below 16 is known, and it reads "Increase encryption key size from N to 16 bytes" |
| SecurityState.Recommendations | Babbi.py:1014-1040 | At most 4 + |services| recommendations |
| SecurityState.AssessmentRecommendations | Babbi.py:1014-1033 | "Enable encryption" is advised exactly when encryption is off; the privacy advice exactly when no private address is used; the MITM advice exactly when pairing is Just Works |
| SecurityState.PairingSecurity | Babbi.py:1014-1022 | Pairing is Low exactly for IO capability `0x03`/`3`, Medium exactly for `0x01`/`1`, High exactly for `0x04`/`4`, and Unknown otherwise |
| SecurityState.RecommendationGroups | Babbi.py:1014-1040 | A text is recommended exactly when it is the MITM advice for Just Works pairing, the encryption advice when unencrypted, the key-size advice, the privacy advice without a private address, or a health advice |
| SecurityState.KeySizeAdviceStandsApart | Babbi.py:1025-1040 | An "Increase …" text is none of the other recommendations |
| SecurityState.AssessmentKeySizeAdvice | Babbi.py:1028-1029 | Some "Increase …" recommendation is made exactly when a key size below 16 is known |
| SecurityState.AssessmentHealthAdvice | Babbi.py:1035-1040 | For a service of the device, its health advice is recommended exactly when it is a health service and encryption is off |
| SecurityState.EncryptedDeviceNeedsNoEncryptionAdvice | Babbi.py:1025-1040 | An encrypted device is reported "Encrypted" and gets no health-service advice |
| SecurityState.Summarize | Babbi.py:1470-1548 | The summary has one entry per registered device |
| SecurityState.SummaryAgreesWithState | Babbi.py:1484-1546 | Each device summary in the summary has the device name, encryption flag, connection and pairing flags of the state, the full security level (4, 3, 2, 1 or 0 in the cases of the source), the three key-exchange flags, and exactly that device's ledger entries as issues |
| SecurityState.Partners | Babbi.py:932-939 | The partners of a device are exactly the other devices with the same connection handle |
| SecurityState.PartnersSymmetric | Babbi.py:937-939 | Being partners is symmetric |
| SecurityState.NoHandleNoPartners | Babbi.py:935-936 | A device without a connection handle has no partners |
| SecurityState.CrowdFindings | Babbi.py:941-944 | At most one finding per listed device, each of severity 2 |
| SecurityState.CrowdFindingsReported | Babbi.py:941-944 | Every "unusual number of partners" finding has severity 2 and is about a listed device with more than five partners |
| SecurityState.CrowdFindingsComplete | Babbi.py:941-944 | Every listed device with more than five partners gets its finding |
| SecurityState.SensitiveServiceFindings | Babbi.py:974-986 | An encrypted device gets none; otherwise each sensitive service gets a severity-4 "Sensitive service …" finding |
| SecurityState.SensitiveServiceFindingsSound | Babbi.py:973-986 | Every sensitive-service finding is for an unencrypted device and one of its sensitive services |
| SecurityState.DeviceFindings | Babbi.py:962-986 | Every end-of-capture finding for a device is about that device with severity 4 |
| SecurityState.UnencryptedTrafficReported | Babbi.py:964-965 | "Device communicates without encryption" is found exactly when encryption is off and more than 20 packets were seen |
| SecurityState.OutdatedTlsReported | Babbi.py:967-971 | "Using outdated TLS/SSL version: V" is found exactly when the device's stored version is V and V is outdated |
| SecurityState.CheckFindings | Babbi.py:960-986 | Every end-of-capture finding has severity 4 |
| SecurityState.CheckFindingsReported | Babbi.py:960-986 | Every end-of-capture finding is about a registered device and has severity 4 |
| SecurityState.CheckFindingsComplete | Babbi.py:960-986 | Every finding of every device appears in the findings of the whole pass |
| Analyzer.Touched | Babbi.py:905-914 | Registering a device raises its packet count by one and stamps last-seen; an unknown device starts unencrypted with count 1; nothing else changes |
| Analyzer.TrackedAddress | Babbi.py:1195-1199 | The tracked address is the device address when set, else the MAC; it is empty exactly when both are |
| Analyzer.SmpCommandOfLayer | Babbi.py:730-731 | A recognised SMP command needs an `opcode` field with one of the handled spellings |
| Analyzer.EncryptionChange | Babbi.py:850-858 | An HCI event is an encryption change exactly when status is `0` and code is `8`; it enables encryption exactly when `encryption_enabled` is `1` |
| Analyzer.AppendNumber | Babbi.py:1219-1221 | The packet number is appended to the list of its phase and the other lists stay as they were |
| Analyzer.ConnTracked | Babbi.py:1201-1221 | The phase is added to the reached set, first-seen is kept, the packet-number table keeps all five phases, and a known number is appended |
| Analyzer.PairTracked | Babbi.py:1250-1274 | As for connections; the key-exchange flags only grow and a new record starts from the fresh pairing record |
| Analyzer.KeyFlagSet | Babbi.py:786-835 | Pairing confirm, identity information and signing information set their flag and lower none |
| Analyzer.PairingRequestRecord | Babbi.py:749-762 | OOB data and auth requirements are stored when present; MITM protection is bit 2 of the parsed `auth_req` |
| Analyzer.SmpCommandLedger | Babbi.py:744-826 | An SMP command adds at most the MITM, Just Works or public-identity finding; other commands add none |
| Analyzer.SmpCommandLedgerRecords | Babbi.py:744-826 | The MITM finding is recorded afterwards exactly when already there or a pairing request without MITM; the Just Works finding exactly when already there or a Just Works response; the public-identity finding exactly when already there or a registered device reports identity type `0` |
| Analyzer.SmpCommandKeepsRegistry | Babbi.py:715-835 | An SMP command keeps the registry keys, the SMP mark, packet count and encryption flag of its device, and every other device |
| Analyzer.SmpNoted | Babbi.py:725-727 | Marking SMP sets the flag of that device only, if registered |
| Analyzer.SmpCommandPairingGrows | Babbi.py:729-842 | An SMP command changes only the pairing record of its address, lowers no flag, and the three pairing steps leave that address with a record |
| Analyzer.PairingRequestStoresMitm | Babbi.py:743-762 | After a Pairing Request with a hex AuthReq whose I/O capability write did not fail, the record holds that AuthReq, the pairing-request phase, and MITM protection equal to bit 2 |
| Analyzer.PairingRequestMitmAgreesWithDecoder | Babbi.py:758-762 | The handler's MITM flag agrees with the SMP decoder's "Required" label for the same field |
| Analyzer.NoMitmFindingAgreesWithDecoder | Babbi.py:758-766 | A pairing request adds the "No MITM protection" finding exactly when the decoder reports MITM as not required |
| Analyzer.WithHandle | Babbi.py:1232-1234 | Storing a connection handle changes only that device's handle |
| Analyzer.FoundAfterRegistering | Babbi.py:320-328 | After registering the advertising address, the raw address is found in the registry exactly when it is non-empty and already lower case |
| Analyzer.HciDevice | Babbi.py:848-864 | An encryption-change event sets the encryption flag; a parsable key size is stored; nothing else changes |
| Analyzer.AddressTyped | Babbi.py:326-333 | The address type is stored, and privacy is on exactly when the type is `1` |
| Analyzer.PotentialEncryptionMarked | Babbi.py:372-378 | Exactly the devices with a connection handle are marked as potentially encrypted; no other field changes |
| Analyzer.Advertised | Babbi.py:424-433 | The advertised-service set becomes the old set plus the UUIDs; the DFU flag is set only for an encrypted device advertising a DFU service |
| Analyzer.GattCounted | Babbi.py:448-451 | The opcode's counter rises by one and the other counters are unchanged |
| Analyzer.GattFinding | Babbi.py:444-483 | A finding needs an opcode, a parsable handle and an unencrypted registered target; a non-empty sender missing from the registry ends the analysis without a finding; a write is severity 4 exactly below handle 0xFF, otherwise 3, about the destination; a read finding is the severity-3 read finding below 0xFF; conversely, when the sender is empty or registered, each such write or read on an unencrypted registered device below the limit is reported |
| Analyzer.GattFindingIgnoresCounts | Babbi.py:448-481 | Counting the operation first does not change the finding |
| Analyzer.GattReadRuleIsCaseSensitive | Babbi.py:474-481 | A read `0x0A` of a low handle is flagged, while the lower-case `0x0a` is not |
| Analyzer.LinkedGraph | Babbi.py:929-939 | The linked graph adds to each device its connection-handle partners and keeps the existing edges |
| Analyzer.LinkedGraphSymmetric | Babbi.py:937-939 | Linking keeps the partner graph symmetric |
| Analyzer.LinkedGraphFromEmpty | Babbi.py:932-939 | From an empty graph, the links are exactly the partner relation |
| Analyzer.LinkPair | Babbi.py:937-939 | Adding a pair adds exactly the two directed edges |
| Analyzer.LinkRow | Babbi.py:933-939 | The inner loop links one device with every device sharing its handle |
| Analyzer.RegisterDeviceFindings | Babbi.py:962-986 | The per-device loop registers exactly that device's end-of-capture findings |
| Analyzer.MarkHandleHolders | Babbi.py:372-378 | The loop marks exactly the handle holders and leaves `addr` bound to the last registered device |
| Analyzer.CountPartners | Babbi.py:941-944 | One step of the count registers the crowd finding of the next device, if it has one |
| Analyzer.LinkAndCount | Babbi.py:931-944 | The nested loops build the linked graph and register the crowd findings in registry order |
| Analyzer.CrowdFindingsKeepLedger | Babbi.py:941-944 | The crowd findings keep the ledger duplicate-free with severities in 1..5 |
| Analyzer.CheckFindingsKeepLedger | Babbi.py:960-986 | The end-of-capture findings keep the ledger duplicate-free with severities in 1..5 |
| Analyzer.RegisterCheckFindings | Babbi.py:960-986 | The loop over devices registers exactly the findings of the whole pass |
| Analyzer.SecurityAnalyzer.constructor | Babbi.py:37-78 | A new session is empty, with score 0 |
| Analyzer.SecurityAnalyzer.RegisterDevice | Babbi.py:897-914 | An empty address changes nothing; otherwise the lower-cased address is touched and appended to the registry order if new; all other state is unchanged |
| Analyzer.SecurityAnalyzer.RegisterVulnerability | Babbi.py:916-927 | The ledger becomes `Registered(...)` and stays valid; all other state is unchanged |
| Analyzer.SecurityAnalyzer.TrackConnectionPhase | Babbi.py:1190-1234 | No address means no change; otherwise the phase record is updated and a connection event is appended; connection complete stores the handle and raises exactly for an unregistered device |
| Analyzer.SecurityAnalyzer.RecordConnectionPhase | Babbi.py:1218-1229 | The phase record and event timeline are updated, nothing else |
| Analyzer.SecurityAnalyzer.StoreConnectionHandle | Babbi.py:1231-1234 | The handle is stored; this raises exactly when the device is unregistered |
| Analyzer.SecurityAnalyzer.TrackPairingPhase | Babbi.py:1236-1282 | No address means no change; otherwise the device is SMP-detected, its pairing record is updated, a pairing event is appended, and no pairing flag is lowered |
| Analyzer.SecurityAnalyzer.ExtractSmpInfo | Babbi.py:715-842 | No address means no change; otherwise the address is SMP-detected, the ledger becomes `SmpCommandLedger`, the timeline gains `SmpCommandEvents`, the pairing records become `SmpCommandPairing` and the registry `SmpCommandDevices` of the SMP-marked registry, each followed by the `ltk` step; it raises exactly when the command raises (`SmpCommandRaises`) or the `ltk` step finds no device or record |
| Analyzer.SecurityAnalyzer.HandleSmpLayer | Babbi.py:723-842 | For a non-empty address, the same full new state and raise condition as the SMP handler |
| Analyzer.SecurityAnalyzer.NoteLongTermKey | Babbi.py:837-842 | An `ltk` field marks the device and its pairing record; this raises exactly when either is missing; without the field nothing changes |
| Analyzer.SecurityAnalyzer.NoteAndDispatch | Babbi.py:723-835 | Marks the SMP speaker and dispatches: ledger, timeline, registry and pairing records follow the command's specification functions, and it raises exactly as `SmpCommandRaises` says |
| Analyzer.SecurityAnalyzer.NoteSmpSpeaker | Babbi.py:723-727 | Adds the address to the SMP-detected set and marks its registered record; nothing else changes |
| Analyzer.SecurityAnalyzer.DispatchSmpCommand | Babbi.py:729-835 | The ledger becomes `SmpCommandLedger`, the timeline gains `SmpCommandEvents`, the devices become `SmpCommandDevices`, the pairing records become `SmpCommandPairing`, and it raises exactly as `SmpCommandRaises` says; an unrecognised opcode changes nothing |
| Analyzer.SecurityAnalyzer.DispatchPairingStep | Babbi.py:733-784 | The three pairing commands have the full effects stated for the dispatch, including the pairing record |
| Analyzer.SecurityAnalyzer.DispatchKeyDistribution | Babbi.py:786-835 | The five key-distribution commands have the full effects stated for the dispatch, including the pairing record |
| Analyzer.SecurityAnalyzer.OnSecurityRequest | Babbi.py:733-741 | The pairing record becomes the tracked record, with the parsed level when `authentication` is hex; this raises exactly when `authentication` is present but not hex; one security-request event is appended; devices and ledger are kept |
| Analyzer.SecurityAnalyzer.OnPairingRequest | Babbi.py:743-766 | The phase and event are recorded; this raises exactly on an unregistered device with an IO capability, or on an unparsable `auth_req`; the MITM finding is added exactly when bit 2 is clear |
| Analyzer.SecurityAnalyzer.OnPairingResponse | Babbi.py:768-784 | The pairing record becomes the tracked record with the responder IO capability when present; one pairing-response event is appended; the Just Works finding is added exactly for `0x03` or `3` |
| Analyzer.SecurityAnalyzer.OnKeyFlag | Babbi.py:786-835 | Confirm, identity and signing information set their flag and log a key event; this raises exactly without a pairing record |
| Analyzer.SecurityAnalyzer.OnEncryptionInformation | Babbi.py:795-806 | The pairing record gets the LTK mark and the tracked key-distribution phase; this raises exactly without a pairing record or device; otherwise the device gets `has_ltk` and an LTK event is logged |
| Analyzer.SecurityAnalyzer.MarkKeyDistribution | Babbi.py:797-799 | Marks the LTK exchange and the key-distribution phase and logs the phase event |
| Analyzer.SecurityAnalyzer.OnIdentityAddressInformation | Babbi.py:817-826 | The identity type is stored; this raises exactly for an unregistered device; type `0` adds the public-identity finding |
| Analyzer.SecurityAnalyzer.OnLongTermKey | Babbi.py:837-842 | An `ltk` field sets `has_ltk` and `ltk_exchanged`; this raises exactly when the device or its pairing record is missing |
| Analyzer.SecurityAnalyzer.ExtractHciEvtInfo | Babbi.py:844-867 | This raises exactly on an unregistered address with an event to record, or an unparsable key size; otherwise the device follows `HciDevice` and a key size below 16 adds the weak-key finding |
| Analyzer.SecurityAnalyzer.NoteAdvertiser | Babbi.py:320-335 | A non-empty advertiser is registered; with an address type present, indexing with the raw address raises exactly when the address is empty or not lower case; a non-random address type adds the public-address finding |
| Analyzer.SecurityAnalyzer.ProcessBlePacket | Babbi.py:316-386 | Non-BLE packets change nothing; the ledger and timeline only grow; a connectable PDU type with an advertising address that does not raise logs its connection event first |
| Analyzer.SecurityAnalyzer.TrackPacketPhases | Babbi.py:337-369 | The timeline only grows, and a connectable PDU type logs its connection event first |
| Analyzer.SecurityAnalyzer.AnalyzePayload | Babbi.py:371-386 | The ledger only grows; the timeline and phase records are unchanged |
| Analyzer.SecurityAnalyzer.MarkPotentialEncryption | Babbi.py:371-378 | Devices become `PotentialEncryptionMarked`, and `addr` is rebound to the last registered device |
| Analyzer.SecurityAnalyzer.AnalyzeAdvertisingData | Babbi.py:411-435 | A registered advertiser gets its name and advertised services, and the service findings are registered; otherwise nothing changes |
| Analyzer.SecurityAnalyzer.AdvertiseServices | Babbi.py:423-433 | The UUID loop yields `Advertised` and registers `AdvertisedServiceFindings` |
| Analyzer.SecurityAnalyzer.AdvertiseService | Babbi.py:427-433 | One UUID is added and its service findings are registered |
| Analyzer.SecurityAnalyzer.CheckVulnerableService | Babbi.py:560-576 | Registers the service findings; a DFU service raises exactly when the address is empty, and sets the DFU flag only on a known encrypted device |
| Analyzer.SecurityAnalyzer.AnalyzeGattOperations | Babbi.py:437-483 | The opcode counter of a registered device rises, and the ledger gains `GattFinding` if there is one |
| Analyzer.SecurityAnalyzer.AnalyzeCommunicationPatterns | Babbi.py:929-944 | The graph becomes the linked graph and the crowd findings are registered in registry order; the graph stays symmetric |
| Analyzer.SecurityAnalyzer.CheckForVulnerabilities | Babbi.py:960-986 | The end-of-capture findings are registered in registry order; the ledger stays valid |
| Analyzer.SecurityAnalyzer.CalculateRiskScore | Babbi.py:988-1002 | The score becomes `RiskScore` of the ledger and device count and stays within 0..100 |
| Analyzer.SecurityAnalyzer.GenerateAuthenticationSummary | Babbi.py:1470-1548 | One summary per registered device, built by `Summarize`; the totals are the number of devices, of SMP-detected devices, and of encrypted, unencrypted and SMP-less devices |

## Left out

- Reading the capture (pyshark), `analyze`'s packet loop, `_process_packet`
  and `_extract_mac_addresses_from_raw` are left out. They are file I/O and
  dispatch over a foreign packet library.
- `_get_mac_from_packet` is not part of this model. Its result is the
  packet's `mac` field.
- The packet's attribute listing (`dir(packet.btle)`, filtered for names
  containing `uuid`) is given as the list `advertisedUuids`.
- The clock (`datetime.now()`) is the parameter `now`.
- Capture timestamps and packet numbers are optional strings.
- The counters `protocols`, `protocol_versions`, `encryption_types` and
  `auth_methods` are not modelled. They are statistics only and never read
  by the modelled code.
- The following are out of scope for this model:
  - the non-Bluetooth protocols, SSL/TLS and service discovery handlers;
  - firmware detection and firmware-update encryption;
  - end-to-end encryption detection;
  - HCI command parsing;
  - protocol versions;
  - report generation, saving and loading.

  The TLS version stored on a device is read by the vulnerability check, so
  it is a device field.
- Python's `int()` also accepts surrounding blanks, a sign in hex, and `_`
  separators. Those forms are parsed as failures here.
- `str.lower()` only folds ASCII letters.
- The risk score uses `real` arithmetic, not floating point. `min(100, …)`
  is exact here.
- A device's `services` set is a sequence without repetitions. Its order
  fixes the order of findings.
- The `defaultdict(set)` communication map is a map. A missing key reads as
  the empty set, and the linking pass creates the entry it would create.
- `_process_ble_packet` reuses the name `addr` as the loop variable of the
  LLID 3 loop. The advertising and GATT analysis that follow then receive the
  last registered device, not the advertiser. The model keeps this as
  written.
- A handler that raises, and the catch-all `except` in
  `_analyze_advertising_data` and `_analyze_gatt_operations`, are both
  modelled as stopping at the failing statement.
  - An unregistered address in those two handlers is modelled as doing
    nothing. Python gets the same result, because the `KeyError` is
    swallowed before any change.
  - A non-hex GATT handle likewise records the counter and no finding.
- Analyzer.SecurityAnalyzer.ProcessBlePacket: states that the ledger and
  the timeline only grow, and the first connection event. It does not state
  the exact final state of the whole dispatch. That state is stated by the
  handlers it calls.
- Analyzer.SecurityAnalyzer.TrackPacketPhases: states only the first event
  logged and that the timeline grows. The HCI connection-complete branch is
  stated by TrackConnectionPhase.
- Analyzer.SecurityAnalyzer.AnalyzePayload: states only that the ledger
  grows and which fields stay unchanged. The effects on devices are stated
  by MarkPotentialEncryption, AnalyzeAdvertisingData and
  AnalyzeGattOperations.
- Analyzer.SecurityAnalyzer.GenerateAuthenticationSummary: its own contract
  states the set of summarised devices and the totals. The content of each
  device summary is stated by SecurityState.SummaryAgreesWithState.
- SecurityState.Summarize: states only the keys; the totals are stated by
  SecurityState.OverallCounts and each entry by
  SecurityState.SummaryAgreesWithState.
- Analyzer.SmpCommandOfLayer: states only that a recognised command comes
  from a present opcode field; which spelling gives which command is stated
  by SecurityState.SmpCommandRecognised and SecurityState.SmpCommandEncodings.
