/**
 * The records `BluetoothSecurityAnalyzer` (Babbi.py) keeps per device, and the
 * pure judgements it derives from them: the 0..4 security level, the
 * authentication summary, the per-device assessment, the connection-handle
 * partner relation and the findings of the end-of-capture checks.
 *
 * Python dictionaries with optional keys become records whose absent keys are
 * `None` (or the default `dict.get` supplies); an address that Python tests
 * for truth is a string, with `""` standing for both `None` and the empty
 * string.
 */
module SecurityState {
  import opened Wrappers
  import opened Text
  import opened Ledger

  // ---------------------------------------------------------------- devices

  /**
   * One entry of `self.devices`. `services` is a Python set; it is kept here
   * without repetitions in the order the services were added, which fixes
   * the order in which findings about them are reported.
   */
  datatype Device = Device(
    packetCount: nat,
    firstSeen: string,
    lastSeen: string,
    services: seq<string>,
    encryptionEnabled: bool,
    encryptionKeySize: Option<int>,
    connectionHandle: Option<string>,
    addressType: Option<string>,
    usesPrivacy: bool,
    smpDetected: bool,
    hasLtk: bool,
    pairingMethod: Option<string>,
    identityAddressType: Option<string>,
    hasDfuService: bool,
    potentialEncryption: bool,
    advertisedServices: set<string>,
    deviceName: Option<string>,
    sslTlsVersion: Option<string>,
    gattOperations: map<string, nat>)

  /** The entry `_register_device` creates, before its packet count is raised. */
  function NewDevice(now: string): (d: Device)
    ensures d.packetCount == 0 && !d.encryptionEnabled && d.services == []
  {
    Device(0, now, now, [], false, None, None, None, false, false, false, None, None,
           false, false, {}, None, None, map[])
  }

  // ---------------------------------------------------------------- connection and pairing phases

  /** The phases `_track_connection_phase` records. */
  datatype ConnPhase = Advertisement | ScanRequest | ScanResponse | ConnectionRequest | ConnectionComplete

  function ConnPhaseName(p: ConnPhase): string {
    match p
    case Advertisement => "advertisement"
    case ScanRequest => "scan_request"
    case ScanResponse => "scan_response"
    case ConnectionRequest => "connection_request"
    case ConnectionComplete => "connection_complete"
  }

  const AllConnPhases: set<ConnPhase> :=
    {Advertisement, ScanRequest, ScanResponse, ConnectionRequest, ConnectionComplete}

  /** `connection_phases[addr]`: the phases seen, the first timestamp, packet numbers per phase. */
  datatype ConnState = ConnState(
    reached: set<ConnPhase>,
    firstSeen: Option<string>,
    packetNumbers: map<ConnPhase, seq<string>>)

  function NewConnState(timestamp: Option<string>): (c: ConnState)
    ensures c.reached == {} && c.packetNumbers.Keys == AllConnPhases
    ensures forall p :: p in c.packetNumbers ==> c.packetNumbers[p] == []
  {
    ConnState({}, timestamp, map[Advertisement := [], ScanRequest := [], ScanResponse := [],
                                 ConnectionRequest := [], ConnectionComplete := []])
  }

  /** The phases `_track_pairing_phase` records, each with its own packet-number list. */
  datatype PairPhase = SecurityRequest | PairingRequest | PairingResponse | KeyDistribution | EncryptionEnabled

  function PairPhaseName(p: PairPhase): string {
    match p
    case SecurityRequest => "security_request"
    case PairingRequest => "pairing_request"
    case PairingResponse => "pairing_response"
    case KeyDistribution => "key_distribution"
    case EncryptionEnabled => "encryption_enabled"
  }

  const AllPairPhases: set<PairPhase> :=
    {SecurityRequest, PairingRequest, PairingResponse, KeyDistribution, EncryptionEnabled}

  /**
   * `pairing_phases[addr]`: the tracked phases seen, the key-exchange and
   * confirmation flags the SMP handler sets directly, and the pairing
   * parameters it stores. (The constant `'security_level': 0` entry, which
   * nothing reads, is not kept.)
   */
  datatype PairState = PairState(
    reached: set<PairPhase>,
    ltkExchanged: bool,
    irkExchanged: bool,
    csrkExchanged: bool,
    pairingConfirm: bool,
    mitmProtection: bool,
    requestedSecurityLevel: Option<nat>,
    oobData: Option<string>,
    authRequirements: Option<string>,
    responderIoCapability: Option<string>,
    firstSeen: Option<string>,
    packetNumbers: map<PairPhase, seq<string>>)

  function NewPairState(timestamp: Option<string>): (s: PairState)
    ensures s.reached == {} && s.packetNumbers.Keys == AllPairPhases
    ensures !s.ltkExchanged && !s.irkExchanged && !s.csrkExchanged && !s.pairingConfirm && !s.mitmProtection
  {
    PairState({}, false, false, false, false, false, None, None, None, None, timestamp,
              map[SecurityRequest := [], PairingRequest := [], PairingResponse := [],
                  KeyDistribution := [], EncryptionEnabled := []])
  }

  /** The flags that are only ever set, never cleared, in a pairing record. */
  predicate PairFlagsGrow(old_: PairState, new_: PairState) {
    old_.reached <= new_.reached
    && (old_.ltkExchanged ==> new_.ltkExchanged)
    && (old_.irkExchanged ==> new_.irkExchanged)
    && (old_.csrkExchanged ==> new_.csrkExchanged)
    && (old_.pairingConfirm ==> new_.pairingConfirm)
  }

  /** The key-exchange steps the SMP handler logs as events of their own. */
  datatype KeyStep = PairingConfirmed | LtkExchange | IrkExchange | CsrkExchange

  /**
   * A timeline entry of `self.security_events`: a tracked connection or
   * pairing phase (with the timestamp and packet number of the packet that
   * showed it), or a key-exchange step.
   */
  datatype SecurityEvent =
    | ConnectionEvent(connPhase: ConnPhase, device: string, timestamp: Option<string>, packetNum: string)
    | PairingEvent(pairPhase: PairPhase, device: string, timestamp: Option<string>, packetNum: string)
    | KeyEvent(step: KeyStep, device: string)

  /** The event type a connection phase is logged under, `connection_<phase>`. */
  function ConnEventKind(p: ConnPhase): string {
    "connection_" + ConnPhaseName(p)
  }

  /** The event type a pairing phase is logged under, `pairing_<phase>`. */
  function PairEventKind(p: PairPhase): string {
    "pairing_" + PairPhaseName(p)
  }

  function KeyStepKind(k: KeyStep): string {
    match k
    case PairingConfirmed => "pairing_confirm"
    case LtkExchange => "ltk_exchange"
    case IrkExchange => "irk_exchange"
    case CsrkExchange => "csrk_exchange"
  }

  /** The `'type'` entry of the logged record. */
  function EventType(e: SecurityEvent): string {
    match e
    case ConnectionEvent(p, _, _, _) => ConnEventKind(p)
    case PairingEvent(p, _, _, _) => PairEventKind(p)
    case KeyEvent(k, _) => KeyStepKind(k)
  }

  /**
   * The `'type'` string alone tells which phase or step an entry records:
   * no two kinds of entry share a type.
   */
  lemma EventTypeDetermines(e1: SecurityEvent, e2: SecurityEvent)
    requires EventType(e1) == EventType(e2)
    ensures e1.ConnectionEvent? <==> e2.ConnectionEvent?
    ensures e1.PairingEvent? <==> e2.PairingEvent?
    ensures e1.KeyEvent? <==> e2.KeyEvent?
    ensures e1.ConnectionEvent? && e2.ConnectionEvent? ==> e1.connPhase == e2.connPhase
    ensures e1.PairingEvent? && e2.PairingEvent? ==> e1.pairPhase == e2.pairPhase
    ensures e1.KeyEvent? && e2.KeyEvent? ==> e1.step == e2.step
  {
    TypeClass(e1);
    TypeClass(e2);
    if e1.KeyEvent? && e2.KeyEvent? {
      assert KeyStepKind(e1.step) == KeyStepKind(e2.step);
    }
    if e1.ConnectionEvent? && e2.ConnectionEvent? {
      var t := EventType(e1);
      assert ConnPhaseName(e1.connPhase) == t[11..] == ConnPhaseName(e2.connPhase);
    }
    if e1.PairingEvent? && e2.PairingEvent? {
      var t := EventType(e1);
      assert PairPhaseName(e1.pairPhase) == t[8..] == PairPhaseName(e2.pairPhase);
    }
  }

  /** How long the type string of each kind of entry is and how it begins. */
  lemma TypeClass(e: SecurityEvent)
    ensures |EventType(e)| > 1
    ensures e.ConnectionEvent? ==> |EventType(e)| > 11 && EventType(e)[..11] == "connection_"
    ensures e.ConnectionEvent? ==> EventType(e)[0] == 'c' && EventType(e)[1] == 'o'
    ensures e.PairingEvent? ==> |EventType(e)| > 15 && EventType(e)[..8] == "pairing_" && EventType(e)[0] == 'p'
    ensures e.KeyEvent? ==> |EventType(e)| <= 15 && EventType(e)[1] != 'o'
  {
    match e
    case ConnectionEvent(p, _, _, _) =>
      var t := EventType(e);
      assert t[..11] == "connection_";
      assert t[0] == t[..11][0] && t[1] == t[..11][1];
    case PairingEvent(p, _, _, _) =>
      var t := EventType(e);
      assert |PairPhaseName(p)| > 7;
      assert t[..8] == "pairing_";
      assert t[0] == t[..8][0];
    case KeyEvent(k, _) =>
  }

  // ---------------------------------------------------------------- packet dispatch tables

  /**
   * The connection phase an advertising-channel PDU type announces, by the
   * analyzer's own table: '0' advertisement, '2' scan request, '3' scan
   * response, '5' connection request; any other type announces none.
   */
  function ConnPhaseOfPdu(pduType: string): (p: Option<ConnPhase>)
    ensures p != Some(ConnectionComplete)
    ensures p.Some? <==> pduType in {"0", "2", "3", "5"}
  {
    if pduType == "0" then Some(Advertisement)
    else if pduType == "2" then Some(ScanRequest)
    else if pduType == "3" then Some(ScanResponse)
    else if pduType == "5" then Some(ConnectionRequest)
    else None
  }

  /** The SMP commands `_extract_smp_info` acts on. */
  datatype SmpCommand =
    | SecurityRequestCmd | PairingRequestCmd | PairingResponseCmd | PairingConfirmCmd
    | EncryptionInformationCmd | IdentityInformationCmd | IdentityAddressInformationCmd
    | SigningInformationCmd | OtherCmd

  /** The sixteen spellings the SMP dispatch recognises. */
  const SmpOpcodeSpellings: set<string> :=
    {"0x0b", "11", "0x01", "1", "0x02", "2", "0x03", "3", "0x06", "6", "0x07", "7", "0x08", "8", "0x09", "9"}

  /** The command code, written either as lower-case `0x..` hex or in decimal. */
  function SmpCommandOf(opcode: string): SmpCommand {
    if opcode == "0x0b" || opcode == "11" then SecurityRequestCmd
    else if opcode == "0x01" || opcode == "1" then PairingRequestCmd
    else if opcode == "0x02" || opcode == "2" then PairingResponseCmd
    else if opcode == "0x03" || opcode == "3" then PairingConfirmCmd
    else if opcode == "0x06" || opcode == "6" then EncryptionInformationCmd
    else if opcode == "0x07" || opcode == "7" then IdentityInformationCmd
    else if opcode == "0x08" || opcode == "8" then IdentityAddressInformationCmd
    else if opcode == "0x09" || opcode == "9" then SigningInformationCmd
    else OtherCmd
  }

  /** Exactly the sixteen listed spellings name a command; every other opcode is ignored. */
  lemma SmpCommandRecognised(opcode: string)
    ensures SmpCommandOf(opcode) != OtherCmd <==> opcode in SmpOpcodeSpellings
  {
  }

  /** The two spellings of a command agree; the upper-case hex spelling `0x0B` is not recognised. */
  lemma SmpCommandEncodings(code: nat)
    requires code in {1, 2, 3, 6, 7, 8, 9, 11}
    ensures SmpCommandOf(IntToString(code)) != OtherCmd
    ensures code < 10 ==> SmpCommandOf(['0', 'x', '0', DigitChar(code)]) == SmpCommandOf(IntToString(code))
  {
    if code == 11 {
      SecurityRequestSpellings();
    } else {
      assert IntToString(code) == [DigitChar(code)];
      var hex := ['0', 'x', '0', DigitChar(code)];
      if code == 1 { assert IntToString(code) == "1" && hex == "0x01"; }
      else if code == 2 { assert IntToString(code) == "2" && hex == "0x02"; }
      else if code == 3 { assert IntToString(code) == "3" && hex == "0x03"; }
      else if code == 6 { assert IntToString(code) == "6" && hex == "0x06"; }
      else if code == 7 { assert IntToString(code) == "7" && hex == "0x07"; }
      else if code == 8 { assert IntToString(code) == "8" && hex == "0x08"; }
      else { assert IntToString(code) == "9" && hex == "0x09"; }
    }
  }

  /** Security Request is `0x0b` or `11`; the upper-case hex spelling `0x0B` is not recognised. */
  lemma SecurityRequestSpellings()
    ensures SmpCommandOf("0x0b") == SmpCommandOf(IntToString(11)) == SecurityRequestCmd
    ensures SmpCommandOf("0x0B") == OtherCmd
  {
    assert IntToString(11) == "11" by {
      assert NatToString(11) == NatToString(1) + [DigitChar(1)];
    }
  }

  // ---------------------------------------------------------------- service rules

  const SerialUuids: seq<string> := ["1101", "1102", "1103", "fff0", "fff1", "ff10"]
  const DfuUuids: seq<string> := ["fe59", "1530", "1532"]

  /** Serial-port related: one of the serial fragments occurs in the lower-cased UUID. */
  predicate IsSerialService(uuid: string) {
    ContainsAny(ToLower(uuid), SerialUuids)
  }

  /** Firmware-update related: one of the DFU fragments occurs in the lower-cased UUID. */
  predicate IsDfuService(uuid: string) {
    ContainsAny(ToLower(uuid), DfuUuids)
  }

  /** The services `_check_for_vulnerabilities` treats as sensitive: matched case-sensitively. */
  const SensitiveServices: seq<string> := ["1811", "183D", "1828", "1809", "1810"]

  /** The health services `_assess_device_security` looks for: matched in the lower-cased UUID. */
  const HealthServices: seq<string> := ["1808", "1809", "1810", "183d"]

  predicate IsSensitiveService(service: string) {
    ContainsAny(service, SensitiveServices)
  }

  predicate IsHealthService(service: string) {
    ContainsAny(ToLower(service), HealthServices)
  }

  /**
   * The two service lists do not agree: the lower-case `'183d'` is sensitive
   * for the assessment only, while `'1828'` and `'1811'` are sensitive for the
   * vulnerability check only.
   */
  lemma ServiceListsDisagree()
    ensures IsHealthService("183d") && !IsSensitiveService("183d")
    ensures IsSensitiveService("1828") && !IsHealthService("1828")
  {
    assert OccursAt("183d", "183d", 0);
    assert OccursAt(ToLower("183d"), HealthServices[3], 0);
    assert OccursAt("1828", SensitiveServices[2], 0);
    forall j | 0 <= j < |SensitiveServices| ensures !Contains("183d", SensitiveServices[j]) {
      assert "183d"[0..4] == "183d";
    }
    assert ToLower("1828") == "1828";
    forall j | 0 <= j < |HealthServices| ensures !Contains("1828", HealthServices[j]) {
      assert "1828"[0..4] == "1828";
    }
  }

  const SERIAL_FINDING := "Using Serial Port Profile - potential for unencrypted data transfer"
  const DFU_FINDING := "Potential unencrypted firmware update mechanism"

  /**
   * The findings `_check_vulnerable_service` raises for one service UUID of
   * device `mac`: the serial-port finding, then the firmware-update finding
   * unless the device is known to be encrypted.
   */
  function ServiceFindings(uuid: string, mac: string, encrypted: bool): (r: seq<Vulnerability>)
    ensures |r| <= 2
    ensures Vulnerability(SERIAL_FINDING, mac, 2) in r <==> IsSerialService(uuid)
    ensures Vulnerability(DFU_FINDING, mac, 5) in r <==> IsDfuService(uuid) && mac != "" && !encrypted
    ensures forall v :: v in r ==> v == Vulnerability(SERIAL_FINDING, mac, 2) || v == Vulnerability(DFU_FINDING, mac, 5)
    ensures |r| == 2 ==> r[0].description == SERIAL_FINDING && r[1].description == DFU_FINDING
  {
    assert SERIAL_FINDING != DFU_FINDING by { assert |SERIAL_FINDING| != |DFU_FINDING|; }
    (if IsSerialService(uuid) then [Vulnerability(SERIAL_FINDING, mac, 2)] else [])
    + (if IsDfuService(uuid) && mac != "" && !encrypted then [Vulnerability(DFU_FINDING, mac, 5)] else [])
  }

  /** The service findings for each advertised UUID in turn. */
  function AdvertisedServiceFindings(uuids: seq<string>, mac: string, encrypted: bool): (r: seq<Vulnerability>)
    ensures forall k :: 0 <= k < |r| ==> r[k].device == mac
    decreases |uuids|
  {
    if uuids == [] then []
    else AdvertisedServiceFindings(uuids[..|uuids| - 1], mac, encrypted)
         + ServiceFindings(uuids[|uuids| - 1], mac, encrypted)
  }

  /** Every finding raised for the advertised list is raised for one of its UUIDs. */
  lemma {:induction false} AdvertisedFindingSource(uuids: seq<string>, mac: string, encrypted: bool, v: Vulnerability)
    requires v in AdvertisedServiceFindings(uuids, mac, encrypted)
    ensures exists k :: 0 <= k < |uuids| && v in ServiceFindings(uuids[k], mac, encrypted)
    decreases |uuids|
  {
    var init := uuids[..|uuids| - 1];
    if v in AdvertisedServiceFindings(init, mac, encrypted) {
      AdvertisedFindingSource(init, mac, encrypted, v);
      var k :| 0 <= k < |init| && v in ServiceFindings(init[k], mac, encrypted);
      assert uuids[k] == init[k];
    } else {
      assert v in ServiceFindings(uuids[|uuids| - 1], mac, encrypted);
    }
  }

  /** Every finding raised for one advertised UUID is raised for the list. */
  lemma {:induction false} AdvertisedFindingRaised(uuids: seq<string>, mac: string, encrypted: bool, k: nat, v: Vulnerability)
    requires k < |uuids| && v in ServiceFindings(uuids[k], mac, encrypted)
    ensures v in AdvertisedServiceFindings(uuids, mac, encrypted)
    decreases |uuids|
  {
    var init := uuids[..|uuids| - 1];
    if k < |init| {
      assert init[k] == uuids[k];
      AdvertisedFindingRaised(init, mac, encrypted, k, v);
    }
  }

  /** A finding is raised for the advertised list exactly when it is raised for one of its UUIDs. */
  lemma AdvertisedServiceFindingsMembers(uuids: seq<string>, mac: string, encrypted: bool, v: Vulnerability)
    ensures v in AdvertisedServiceFindings(uuids, mac, encrypted)
        <==> exists k :: 0 <= k < |uuids| && v in ServiceFindings(uuids[k], mac, encrypted)
  {
    if v in AdvertisedServiceFindings(uuids, mac, encrypted) {
      AdvertisedFindingSource(uuids, mac, encrypted, v);
    }
    if exists k :: 0 <= k < |uuids| && v in ServiceFindings(uuids[k], mac, encrypted) {
      var k :| 0 <= k < |uuids| && v in ServiceFindings(uuids[k], mac, encrypted);
      AdvertisedFindingRaised(uuids, mac, encrypted, k, v);
    }
  }

  // ---------------------------------------------------------------- security level and summary

  /**
   * The 0..4 scale of `generate_authentication_summary`: 4 encrypted with
   * MITM protection, 3 encrypted, 2 paired, 1 connected, 0 nothing.
   */
  function SecurityLevel(encrypted: bool, mitm: bool, paired: bool, connected: bool): (level: nat)
    ensures level <= 4
    ensures level >= 3 <==> encrypted
    ensures level == 4 <==> encrypted && mitm
    ensures level == 2 <==> !encrypted && paired
    ensures level == 1 <==> !encrypted && !paired && connected
    ensures level == 0 <==> !encrypted && !paired && !connected
  {
    if encrypted then (if mitm then 4 else 3)
    else if paired then 2
    else if connected then 1
    else 0
  }

  /** Gaining any of the four properties never lowers the level. */
  lemma SecurityLevelMonotone(e: bool, m: bool, p: bool, c: bool, e': bool, m': bool, p': bool, c': bool)
    requires (e ==> e') && (m ==> m') && (p ==> p') && (c ==> c')
    ensures SecurityLevel(e, m, p, c) <= SecurityLevel(e', m', p', c')
  {
  }

  /** A connection counts as established once a connection request or completion was seen. */
  function ConnectionEstablished(conn: Option<ConnState>): (b: bool)
    ensures b <==> conn.Some? && (ConnectionRequest in conn.value.reached || ConnectionComplete in conn.value.reached)
  {
    match conn
    case None => false
    case Some(c) => ConnectionRequest in c.reached || ConnectionComplete in c.reached
  }

  /** An entry of a device's `security_issues`. */
  datatype Issue = Issue(severity: int, issue: string)

  /** A ledger entry as a device's issue: its severity and description. */
  function AsIssue(v: Vulnerability): Issue {
    Issue(v.severity, v.description)
  }

  /** The ledger entries about `addr`, in ledger order: exactly those, each as an issue. */
  function IssuesOf(ledger: seq<Vulnerability>, addr: string): (r: seq<Issue>)
    ensures |r| <= |ledger|
    ensures forall x :: x in r ==> exists v :: v in ledger && v.device == addr && x == AsIssue(v)
    ensures forall v :: v in ledger && v.device == addr ==> AsIssue(v) in r
  {
    if ledger == [] then []
    else
      var rest := IssuesOf(ledger[1..], addr);
      assert forall v :: v in ledger[1..] ==> v in ledger;
      assert forall v :: v in ledger ==> v == ledger[0] || v in ledger[1..];
      if ledger[0].device == addr then [AsIssue(ledger[0])] + rest else rest
  }

  /** The issues of a ledger extended at the end are the old issues followed by the new ones. */
  lemma {:induction false} IssuesOfAppend(a: seq<Vulnerability>, b: seq<Vulnerability>, addr: string)
    ensures IssuesOf(a + b, addr) == IssuesOf(a, addr) + IssuesOf(b, addr)
  {
    if a != [] {
      assert (a + b)[0] == a[0];
      assert (a + b)[1..] == a[1..] + b;
      IssuesOfAppend(a[1..], b, addr);
    } else {
      assert a + b == b;
    }
  }

  /** `summary['devices'][addr]`. Absent phase records give `None` for the phase maps (Python's `{}`). */
  datatype DeviceSummary = DeviceSummary(
    deviceName: string,
    connectionEstablished: bool,
    pairingEstablished: bool,
    encryptionEnabled: bool,
    securityLevel: nat,
    connectionPhases: Option<set<ConnPhase>>,
    pairingPhases: Option<set<PairPhase>>,
    ltkExchanged: bool,
    irkExchanged: bool,
    csrkExchanged: bool,
    securityIssues: seq<Issue>)

  /** The summary lists every pairing phase except the encryption one. */
  lemma SummaryPairPhases(reached: set<PairPhase>)
    ensures reached * {SecurityRequest, PairingRequest, PairingResponse, KeyDistribution} == reached - {EncryptionEnabled}
  {
    forall p | p in reached
      ensures p in {SecurityRequest, PairingRequest, PairingResponse, KeyDistribution} <==> p != EncryptionEnabled
    {
      match p
      case EncryptionEnabled =>
      case _ =>
    }
  }

  /** The per-device part of `generate_authentication_summary`. */
  function SummarizeDevice(d: Device, conn: Option<ConnState>, pair: Option<PairState>, issues: seq<Issue>)
    : (s: DeviceSummary)
    ensures s.connectionEstablished == ConnectionEstablished(conn)
    ensures s.pairingEstablished <==> pair.Some? && pair.value.pairingConfirm
    ensures s.deviceName == d.deviceName.GetOr("Unknown Device")
    ensures s.encryptionEnabled == d.encryptionEnabled
    ensures s.securityLevel == SecurityLevel(d.encryptionEnabled, pair.Some? && pair.value.mitmProtection,
                                             s.pairingEstablished, s.connectionEstablished)
    ensures s.connectionPhases.Some? <==> conn.Some?
    ensures conn.Some? ==> s.connectionPhases.value == conn.value.reached
    ensures s.pairingPhases.Some? <==> pair.Some?
    ensures pair.Some? ==> s.pairingPhases.value == pair.value.reached - {EncryptionEnabled}
    ensures s.ltkExchanged <==> pair.Some? && pair.value.ltkExchanged
    ensures s.irkExchanged <==> pair.Some? && pair.value.irkExchanged
    ensures s.csrkExchanged <==> pair.Some? && pair.value.csrkExchanged
    ensures s.securityIssues == issues
  {
    var connected := ConnectionEstablished(conn);
    var paired := pair.Some? && pair.value.pairingConfirm;
    var mitm := pair.Some? && pair.value.mitmProtection;
    SummaryPairPhases(if pair.Some? then pair.value.reached else {});
    DeviceSummary(
      d.deviceName.GetOr("Unknown Device"),
      connected,
      paired,
      d.encryptionEnabled,
      SecurityLevel(d.encryptionEnabled, mitm, paired, connected),
      if conn.Some? then Some(conn.value.reached) else None,
      if pair.Some? then Some(pair.value.reached * {SecurityRequest, PairingRequest, PairingResponse, KeyDistribution}) else None,
      pair.Some? && pair.value.ltkExchanged,
      pair.Some? && pair.value.irkExchanged,
      pair.Some? && pair.value.csrkExchanged,
      issues)
  }

  /** `summary['overall_findings']`. */
  datatype OverallFindings = OverallFindings(
    totalDevices: nat,
    devicesWithSmpDetected: nat,
    devicesWithEncryption: nat,
    devicesWithoutPairing: nat,
    devicesWithoutEncryption: nat)

  /** How many of the devices listed in `order` are encrypted. */
  function CountEncrypted(order: seq<string>, devices: map<string, Device>): (n: nat)
    requires forall k :: 0 <= k < |order| ==> order[k] in devices
    ensures n <= |order|
  {
    if order == [] then 0
    else (if devices[order[0]].encryptionEnabled then 1 else 0) + CountEncrypted(order[1..], devices)
  }

  /** How many of the devices listed in `order` have no SMP activity recorded. */
  function CountWithoutSmp(order: seq<string>, devices: map<string, Device>): (n: nat)
    requires forall k :: 0 <= k < |order| ==> order[k] in devices
    ensures n <= |order|
  {
    if order == [] then 0
    else (if devices[order[0]].smpDetected then 0 else 1) + CountWithoutSmp(order[1..], devices)
  }

  function Overall(order: seq<string>, devices: map<string, Device>, smpDetected: set<string>)
    : (o: OverallFindings)
    requires forall k :: 0 <= k < |order| ==> order[k] in devices
    ensures o.totalDevices == |order|
    ensures o.devicesWithEncryption + o.devicesWithoutEncryption == o.totalDevices
    ensures o.devicesWithoutPairing <= o.totalDevices
    ensures o.devicesWithSmpDetected == |smpDetected|
  {
    var enc := CountEncrypted(order, devices);
    OverallFindings(|order|, |smpDetected|, enc, CountWithoutSmp(order, devices), |order| - enc)
  }

  /** Encrypted devices are counted exactly when some device is encrypted. */
  lemma {:induction false} CountEncryptedPositive(order: seq<string>, devices: map<string, Device>)
    requires forall k :: 0 <= k < |order| ==> order[k] in devices
    ensures CountEncrypted(order, devices) > 0 <==> exists k :: 0 <= k < |order| && devices[order[k]].encryptionEnabled
  {
    if order != [] {
      CountEncryptedPositive(order[1..], devices);
      if exists k :: 0 <= k < |order| && devices[order[k]].encryptionEnabled {
        var k :| 0 <= k < |order| && devices[order[k]].encryptionEnabled;
        if k > 0 {
          assert order[1..][k - 1] == order[k];
        }
      }
      if exists k :: 0 <= k < |order[1..]| && devices[order[1..][k]].encryptionEnabled {
        var k :| 0 <= k < |order[1..]| && devices[order[1..][k]].encryptionEnabled;
        assert order[k + 1] == order[1..][k];
      }
    }
  }

  /** No address is listed twice. */
  predicate Distinct(order: seq<string>) {
    forall i, j :: 0 <= i < j < |order| ==> order[i] != order[j]
  }

  /** The tail of a duplicate-free listing is duplicate-free and lacks the head. */
  lemma DistinctTail(order: seq<string>)
    requires Distinct(order) && order != []
    ensures Distinct(order[1..]) && order[0] !in order[1..]
    ensures forall a :: a in order <==> a == order[0] || a in order[1..]
  {
    var rest := order[1..];
    forall i, j | 0 <= i < j < |rest|
      ensures rest[i] != rest[j]
    {
      assert rest[i] == order[i + 1] && rest[j] == order[j + 1];
    }
    assert order == [order[0]] + rest;
  }

  /** A duplicate-free listing names as many addresses as it has entries. */
  lemma {:induction false} DistinctSize(order: seq<string>)
    requires Distinct(order)
    ensures |set a | a in order| == |order|
  {
    if order != [] {
      DistinctTail(order);
      DistinctSize(order[1..]);
      assert (set a | a in order) == (set a | a in order[1..]) + {order[0]};
    }
  }

  /** Over a duplicate-free listing, the encrypted count is the number of encrypted devices listed. */
  lemma {:induction false} CountEncryptedSize(order: seq<string>, devices: map<string, Device>)
    requires forall k :: 0 <= k < |order| ==> order[k] in devices
    requires Distinct(order)
    ensures CountEncrypted(order, devices) == |set a | a in order && a in devices && devices[a].encryptionEnabled|
  {
    if order != [] {
      DistinctTail(order);
      CountEncryptedSize(order[1..], devices);
      var listed := set a | a in order && a in devices && devices[a].encryptionEnabled;
      var rest := set a | a in order[1..] && a in devices && devices[a].encryptionEnabled;
      if devices[order[0]].encryptionEnabled {
        assert listed == rest + {order[0]};
      } else {
        assert listed == rest;
      }
    }
  }

  /** Over a duplicate-free listing, the count without SMP is the number of such devices listed. */
  lemma {:induction false} CountWithoutSmpSize(order: seq<string>, devices: map<string, Device>)
    requires forall k :: 0 <= k < |order| ==> order[k] in devices
    requires Distinct(order)
    ensures CountWithoutSmp(order, devices) == |set a | a in order && a in devices && !devices[a].smpDetected|
  {
    if order != [] {
      DistinctTail(order);
      CountWithoutSmpSize(order[1..], devices);
      var listed := set a | a in order && a in devices && !devices[a].smpDetected;
      var rest := set a | a in order[1..] && a in devices && !devices[a].smpDetected;
      if devices[order[0]].smpDetected {
        assert listed == rest;
      } else {
        assert listed == rest + {order[0]};
      }
    }
  }

  /**
   * When `order` lists every registered device once, the overall counts are
   * the sizes of the registry, of its encrypted and unencrypted entries, and
   * of its entries without SMP activity.
   */
  lemma OverallCounts(order: seq<string>, devices: map<string, Device>, smpDetected: set<string>)
    requires forall k :: 0 <= k < |order| ==> order[k] in devices
    requires Distinct(order) && forall a :: a in devices <==> a in order
    ensures var o := Overall(order, devices, smpDetected);
            && o.totalDevices == |devices|
            && o.devicesWithEncryption == |set a | a in devices && devices[a].encryptionEnabled|
            && o.devicesWithoutEncryption == |set a | a in devices && !devices[a].encryptionEnabled|
            && o.devicesWithoutPairing == |set a | a in devices && !devices[a].smpDetected|
  {
    DistinctSize(order);
    assert devices.Keys == set a | a in order;
    CountEncryptedSize(order, devices);
    CountWithoutSmpSize(order, devices);
    var encrypted := set a | a in devices && devices[a].encryptionEnabled;
    var plain := set a | a in devices && !devices[a].encryptionEnabled;
    assert encrypted == set a | a in order && a in devices && devices[a].encryptionEnabled;
    assert (set a | a in devices && !devices[a].smpDetected) == set a | a in order && a in devices && !devices[a].smpDetected;
    assert plain == devices.Keys - encrypted;
  }

  /** The summary `generate_authentication_summary` returns. */
  datatype AuthenticationSummary = AuthenticationSummary(
    overall: OverallFindings,
    devices: map<string, DeviceSummary>)

  // ---------------------------------------------------------------- assessment

  datatype Assessment = Assessment(
    encryptionStatus: string,
    pairingSecurity: string,
    protocolSecurity: seq<string>,
    recommendations: seq<string>)

  // The two longer recommendations are written in two parts: the verifier
  // reads the characters of a literal this long only from its end.
  const JUST_WORKS_ADVICE := "Use a more secure pairing " + "method with MITM protection"  // split: as one literal, its first character is unprovable
  const ENCRYPTION_ADVICE := "Enable encryption for all communications"
  const PRIVACY_ADVICE := "Use private random address " + "instead of public address"  // split: as one literal, its first character is unprovable

  /** The pairing-security rating of an initiator IO capability. */
  function PairingSecurity(pairingMethod: Option<string>): (r: string)
    ensures r == "Low (Just Works)" <==> pairingMethod == Some("0x03") || pairingMethod == Some("3")
    ensures r == "Medium (Display Yes/No)" <==> pairingMethod == Some("0x01") || pairingMethod == Some("1")
    ensures r == "High (Keyboard)" <==> pairingMethod == Some("0x04") || pairingMethod == Some("4")
    ensures r in {"Low (Just Works)", "Medium (Display Yes/No)", "High (Keyboard)", "Unknown"}
  {
    match pairingMethod
    case None => "Unknown"
    case Some(io) =>
      if io == "0x03" || io == "3" then "Low (Just Works)"
      else if io == "0x01" || io == "1" then "Medium (Display Yes/No)"
      else if io == "0x04" || io == "4" then "High (Keyboard)"
      else "Unknown"
  }

  const HEALTH_ADVICE_PREFIX := "Enable encryption for sensitive service "

  /** One recommendation per unencrypted health service, in service order. */
  function HealthServiceAdvice(services: seq<string>, encrypted: bool): (r: seq<string>)
    ensures encrypted ==> r == []
    ensures |r| <= |services|
    ensures forall k :: 0 <= k < |r| ==> StartsWith(r[k], HEALTH_ADVICE_PREFIX)
  {
    if services == [] then []
    else
      var advice := HEALTH_ADVICE_PREFIX + services[0];
      assert advice[..|HEALTH_ADVICE_PREFIX|] == HEALTH_ADVICE_PREFIX;
      (if IsHealthService(services[0]) && !encrypted then [advice] else [])
      + HealthServiceAdvice(services[1..], encrypted)
  }

  /**
   * A health recommendation is given exactly for an unencrypted device, once
   * for each of its services that names a health service.
   */
  lemma {:induction false} HealthServiceAdviceMembers(services: seq<string>, encrypted: bool, x: string)
    ensures x in HealthServiceAdvice(services, encrypted)
        <==> !encrypted && exists k :: 0 <= k < |services| && IsHealthService(services[k]) && x == HEALTH_ADVICE_PREFIX + services[k]
    decreases |services|
  {
    if services != [] {
      var tail := services[1..];
      HealthServiceAdviceMembers(tail, encrypted, x);
      if !encrypted && exists k :: 0 <= k < |services| && IsHealthService(services[k]) && x == HEALTH_ADVICE_PREFIX + services[k] {
        var k :| 0 <= k < |services| && IsHealthService(services[k]) && x == HEALTH_ADVICE_PREFIX + services[k];
        if k > 0 {
          assert tail[k - 1] == services[k];
        }
      }
      if !encrypted && exists k :: 0 <= k < |tail| && IsHealthService(tail[k]) && x == HEALTH_ADVICE_PREFIX + tail[k] {
        var k :| 0 <= k < |tail| && IsHealthService(tail[k]) && x == HEALTH_ADVICE_PREFIX + tail[k];
        assert services[k + 1] == tail[k];
      }
    }
  }

  /** Neither of the fixed recommendations, nor the key-size one, reads as a health-service recommendation. */
  lemma AdviceIsNotHealthAdvice(keySizeAdvice: string)
    requires StartsWith(keySizeAdvice, "Increase")
    ensures !StartsWith(ENCRYPTION_ADVICE, HEALTH_ADVICE_PREFIX)
    ensures !StartsWith(PRIVACY_ADVICE, HEALTH_ADVICE_PREFIX) && !StartsWith(JUST_WORKS_ADVICE, HEALTH_ADVICE_PREFIX)
    ensures !StartsWith(keySizeAdvice, HEALTH_ADVICE_PREFIX)
    ensures ENCRYPTION_ADVICE != PRIVACY_ADVICE && ENCRYPTION_ADVICE != JUST_WORKS_ADVICE && PRIVACY_ADVICE != JUST_WORKS_ADVICE
    ensures keySizeAdvice != ENCRYPTION_ADVICE && keySizeAdvice != PRIVACY_ADVICE && keySizeAdvice != JUST_WORKS_ADVICE
  {
    assert ENCRYPTION_ADVICE[22] != HEALTH_ADVICE_PREFIX[22];
    assert PRIVACY_ADVICE[0] == 'U' && JUST_WORKS_ADVICE[0] == 'U' && HEALTH_ADVICE_PREFIX[0] == 'E';
    assert ENCRYPTION_ADVICE[0] == 'E' && PRIVACY_ADVICE[4] == 'p' && JUST_WORKS_ADVICE[4] == 'a';
    assert keySizeAdvice[0] == "Increase"[0] == 'I';
  }

  /** `_assess_device_security`. */
  function AssessDeviceSecurity(d: Device): (a: Assessment)
    ensures a.encryptionStatus == (if d.encryptionEnabled then "Encrypted" else "Unencrypted")
    ensures a.pairingSecurity == PairingSecurity(d.pairingMethod)
    ensures a.protocolSecurity == []
    ensures |a.recommendations| <= 4 + |d.services|
  {
    var pairing := PairingSecurity(d.pairingMethod);
    Assessment(if d.encryptionEnabled then "Encrypted" else "Unencrypted", pairing, [],
               Recommendations(d, pairing))
  }

  /** The key-size recommendation: present exactly for a stored key shorter than 16 bytes, naming its size. */
  function KeySizeAdvice(keySize: Option<int>): (r: seq<string>)
    ensures |r| <= 1 && forall k :: 0 <= k < |r| ==> StartsWith(r[k], "Increase")
    ensures |r| == 1 <==> keySize.Some? && keySize.value < 16
    ensures |r| == 1 ==> r[0] == "Increase encryption key size from " + IntToString(keySize.value) + " to 16 bytes"
  {
    if keySize.GetOr(16) < 16 then
      var advice := "Increase encryption key size from " + IntToString(keySize.value) + " to 16 bytes";
      assert advice[..8] == "Increase";
      [advice]
    else []
  }

  /** The recommendations, in the order the assessment adds them. */
  function Recommendations(d: Device, pairing: string): (r: seq<string>)
    ensures |r| <= 4 + |d.services|
  {
    (if pairing == "Low (Just Works)" then [JUST_WORKS_ADVICE] else [])
    + (if !d.encryptionEnabled then [ENCRYPTION_ADVICE] else [])
    + KeySizeAdvice(d.encryptionKeySize)
    + (if !d.usesPrivacy then [PRIVACY_ADVICE] else [])
    + HealthServiceAdvice(d.services, d.encryptionEnabled)
  }

  /**
   * Each fixed recommendation appears exactly when its condition holds:
   * encryption advice for an unencrypted device, privacy advice for one
   * without a private address, and the MITM advice for Just Works pairing.
   */
  lemma AssessmentRecommendations(d: Device)
    ensures var a := AssessDeviceSecurity(d);
            && (ENCRYPTION_ADVICE in a.recommendations <==> !d.encryptionEnabled)
            && (PRIVACY_ADVICE in a.recommendations <==> !d.usesPrivacy)
            && (JUST_WORKS_ADVICE in a.recommendations <==> a.pairingSecurity == "Low (Just Works)")
  {
    var pairing := PairingSecurity(d.pairingMethod);
    var keySize := KeySizeAdvice(d.encryptionKeySize);
    var health := HealthServiceAdvice(d.services, d.encryptionEnabled);
    if |keySize| == 1 {
      AdviceIsNotHealthAdvice(keySize[0]);
    } else {
      AdviceIsNotHealthAdvice("Increase");
    }
    assert ENCRYPTION_ADVICE !in health && PRIVACY_ADVICE !in health && JUST_WORKS_ADVICE !in health;
    assert ENCRYPTION_ADVICE !in keySize && PRIVACY_ADVICE !in keySize && JUST_WORKS_ADVICE !in keySize;
  }

  /** A recommendation comes from exactly one of the five groups the assessment concatenates. */
  lemma RecommendationGroups(d: Device, x: string)
    ensures var a := AssessDeviceSecurity(d);
            x in a.recommendations <==>
              || (x == JUST_WORKS_ADVICE && a.pairingSecurity == "Low (Just Works)")
              || (x == ENCRYPTION_ADVICE && !d.encryptionEnabled)
              || x in KeySizeAdvice(d.encryptionKeySize)
              || (x == PRIVACY_ADVICE && !d.usesPrivacy)
              || x in HealthServiceAdvice(d.services, d.encryptionEnabled)
  {
  }

  /** A text starting with "Increase" is neither a fixed nor a health recommendation. */
  lemma KeySizeAdviceStandsApart(d: Device, x: string)
    requires StartsWith(x, "Increase")
    ensures x != JUST_WORKS_ADVICE && x != ENCRYPTION_ADVICE && x != PRIVACY_ADVICE
    ensures x !in HealthServiceAdvice(d.services, d.encryptionEnabled)
  {
    assert x[0] == 'I';
    assert ENCRYPTION_ADVICE[0] == 'E' && PRIVACY_ADVICE[0] == 'U' && JUST_WORKS_ADVICE[0] == 'U';
    assert HEALTH_ADVICE_PREFIX[0] == 'E';
  }

  /** A key-size recommendation is given exactly for a stored key shorter than 16 bytes. */
  lemma AssessmentKeySizeAdvice(d: Device)
    ensures (exists x :: x in AssessDeviceSecurity(d).recommendations && StartsWith(x, "Increase"))
            <==> d.encryptionKeySize.Some? && d.encryptionKeySize.value < 16
  {
    var keySize := KeySizeAdvice(d.encryptionKeySize);
    AdviceIsNotHealthAdvice(if |keySize| == 1 then keySize[0] else "Increase");
    if |keySize| == 1 {
      RecommendationGroups(d, keySize[0]);
    }
    forall x | x in AssessDeviceSecurity(d).recommendations && StartsWith(x, "Increase")
      ensures x in keySize
    {
      RecommendationGroups(d, x);
      KeySizeAdviceStandsApart(d, x);
    }
  }

  /**
   * A health recommendation names a listed service exactly when that service
   * is a health service and the device is unencrypted.
   */
  lemma AssessmentHealthAdvice(d: Device, service: string)
    requires service in d.services
    ensures HEALTH_ADVICE_PREFIX + service in AssessDeviceSecurity(d).recommendations
            <==> IsHealthService(service) && !d.encryptionEnabled
  {
    var keySize := KeySizeAdvice(d.encryptionKeySize);
    AdviceIsNotHealthAdvice(if |keySize| == 1 then keySize[0] else "Increase");
    var advice := HEALTH_ADVICE_PREFIX + service;
    RecommendationGroups(d, advice);
    assert StartsWith(advice, HEALTH_ADVICE_PREFIX) by {
      assert advice[..|HEALTH_ADVICE_PREFIX|] == HEALTH_ADVICE_PREFIX;
    }
    HealthServiceAdviceMembers(d.services, d.encryptionEnabled, advice);
    if advice in HealthServiceAdvice(d.services, d.encryptionEnabled) {
      var k :| 0 <= k < |d.services| && IsHealthService(d.services[k]) && advice == HEALTH_ADVICE_PREFIX + d.services[k];
      assert advice[|HEALTH_ADVICE_PREFIX|..] == service && advice[|HEALTH_ADVICE_PREFIX|..] == d.services[k];
    }
    if IsHealthService(service) && !d.encryptionEnabled {
      var k :| 0 <= k < |d.services| && d.services[k] == service;
    }
  }

  /** An encrypted device gets no encryption advice of any kind, and rates "Encrypted". */
  lemma EncryptedDeviceNeedsNoEncryptionAdvice(d: Device)
    requires d.encryptionEnabled
    ensures AssessDeviceSecurity(d).encryptionStatus == "Encrypted"
    ensures forall k :: 0 <= k < |AssessDeviceSecurity(d).recommendations| ==>
              !StartsWith(AssessDeviceSecurity(d).recommendations[k], HEALTH_ADVICE_PREFIX)
  {
    var pairing := PairingSecurity(d.pairingMethod);
    var keySize := KeySizeAdvice(d.encryptionKeySize);
    var justWorks := if pairing == "Low (Just Works)" then [JUST_WORKS_ADVICE] else [];
    var privacy := if !d.usesPrivacy then [PRIVACY_ADVICE] else [];
    var recs := AssessDeviceSecurity(d).recommendations;
    assert recs == justWorks + [] + keySize + privacy + [];
    if |keySize| == 1 {
      AdviceIsNotHealthAdvice(keySize[0]);
    } else {
      AdviceIsNotHealthAdvice("Increase");
    }
    forall k | 0 <= k < |recs|
      ensures !StartsWith(recs[k], HEALTH_ADVICE_PREFIX)
    {
      if |justWorks| <= k < |justWorks| + |keySize| {
        assert recs[k] == keySize[k - |justWorks|];
      }
    }
  }

  // ---------------------------------------------------------------- authentication summary

  /** `generate_authentication_summary`: the overall counts and one summary per registered device. */
  function Summarize(
    order: seq<string>, devices: map<string, Device>, smpDetected: set<string>,
    connPhases: map<string, ConnState>, pairPhases: map<string, PairState>, ledger: seq<Vulnerability>)
    : (s: AuthenticationSummary)
    requires forall k :: 0 <= k < |order| ==> order[k] in devices
    ensures s.devices.Keys == devices.Keys
  {
    AuthenticationSummary(
      Overall(order, devices, smpDetected),
      map a | a in devices ::
        SummarizeDevice(
          devices[a],
          if a in connPhases then Some(connPhases[a]) else None,
          if a in pairPhases then Some(pairPhases[a]) else None,
          IssuesOf(ledger, a)))
  }

  /**
   * What the summary reports about a registered device, in terms of the
   * analyzer state: its name (or "Unknown Device"), its encryption flag, a
   * connection once a connection request or completion was seen, pairing once
   * a Pairing Confirm was seen, the key flags of its pairing record, the
   * security level those give (3 or more exactly when encrypted, 4 when also
   * MITM-protected, 2 when only paired, 1 when only connected, else 0), and
   * as issues precisely the ledger entries about it.
   */
  lemma SummaryAgreesWithState(
    order: seq<string>, devices: map<string, Device>, smpDetected: set<string>,
    connPhases: map<string, ConnState>, pairPhases: map<string, PairState>, ledger: seq<Vulnerability>,
    a: string)
    requires forall k :: 0 <= k < |order| ==> order[k] in devices
    requires a in devices
    ensures var s := Summarize(order, devices, smpDetected, connPhases, pairPhases, ledger).devices[a];
            var connected := a in connPhases && (ConnectionRequest in connPhases[a].reached || ConnectionComplete in connPhases[a].reached);
            var paired := a in pairPhases && pairPhases[a].pairingConfirm;
            && s.deviceName == devices[a].deviceName.GetOr("Unknown Device")
            && s.encryptionEnabled == devices[a].encryptionEnabled
            && (s.connectionEstablished <==> connected)
            && (s.pairingEstablished <==> paired)
            && (s.securityLevel >= 3 <==> devices[a].encryptionEnabled)
            && (s.securityLevel == 4 <==> devices[a].encryptionEnabled && a in pairPhases && pairPhases[a].mitmProtection)
            && (s.securityLevel == 2 <==> !devices[a].encryptionEnabled && paired)
            && (s.securityLevel == 1 <==> !devices[a].encryptionEnabled && !paired && connected)
            && (s.securityLevel == 0 <==> !devices[a].encryptionEnabled && !paired && !connected)
            && (s.ltkExchanged <==> a in pairPhases && pairPhases[a].ltkExchanged)
            && (s.irkExchanged <==> a in pairPhases && pairPhases[a].irkExchanged)
            && (s.csrkExchanged <==> a in pairPhases && pairPhases[a].csrkExchanged)
            && (forall v :: v in ledger && v.device == a ==> AsIssue(v) in s.securityIssues)
            && (forall x :: x in s.securityIssues ==> exists v :: v in ledger && v.device == a && x == AsIssue(v))
  {
  }

  // ---------------------------------------------------------------- partner graph

  /** Two different registered devices share a connection handle. */
  predicate Linked(devices: map<string, Device>, a: string, b: string) {
    a in devices && b in devices && a != b
    && devices[a].connectionHandle.Some? && devices[a].connectionHandle == devices[b].connectionHandle
  }

  /** The devices `_analyze_communication_patterns` links to `a`. */
  function Partners(devices: map<string, Device>, a: string): (r: set<string>)
    ensures forall b :: b in r <==> Linked(devices, a, b)
    ensures a !in r && r <= devices.Keys
  {
    set b | b in devices && Linked(devices, a, b)
  }

  /** The partner relation is symmetric: `b` is a partner of `a` exactly when `a` is one of `b`. */
  lemma PartnersSymmetric(devices: map<string, Device>, a: string, b: string)
    ensures b in Partners(devices, a) <==> a in Partners(devices, b)
  {
  }

  /** A device without a connection handle has no partners. */
  lemma NoHandleNoPartners(devices: map<string, Device>, a: string)
    requires a in devices && devices[a].connectionHandle.None?
    ensures Partners(devices, a) == {}
  {
  }

  function CrowdFinding(addr: string, partners: nat): Vulnerability {
    Vulnerability("Device communicating with unusual number of partners (" + IntToString(partners) + ")", addr, 2)
  }

  /** `communication_map[a]`, empty for an address the default dictionary has no entry for yet. */
  function PartnersOf(graph: map<string, set<string>>, a: string): set<string> {
    if a in graph then graph[a] else {}
  }

  /** The "unusual number of partners" findings: one per device with more than five partners, in device order. */
  function CrowdFindings(order: seq<string>, commMap: map<string, set<string>>): (r: seq<Vulnerability>)
    ensures |r| <= |order|
    ensures forall k :: 0 <= k < |r| ==> r[k].severity == 2
    decreases |order|
  {
    if order == [] then []
    else
      var a := order[|order| - 1];
      var count := |PartnersOf(commMap, a)|;
      CrowdFindings(order[..|order| - 1], commMap) + (if count > 5 then [CrowdFinding(a, count)] else [])
  }

  /** Every crowd finding is a severity-2 report about a device of the order with more than five partners. */
  lemma {:induction false} CrowdFindingsReported(order: seq<string>, commMap: map<string, set<string>>)
    ensures forall f :: f in CrowdFindings(order, commMap) ==>
              f.severity == 2 && f.device in order && |PartnersOf(commMap, f.device)| > 5
    decreases |order|
  {
    if order != [] {
      var init := order[..|order| - 1];
      var a := order[|order| - 1];
      CrowdFindingsReported(init, commMap);
      var r0 := CrowdFindings(init, commMap);
      var count := |PartnersOf(commMap, a)|;
      var r := r0 + (if count > 5 then [CrowdFinding(a, count)] else []);
      assert CrowdFindings(order, commMap) == r;
      forall f | f in r
        ensures f.severity == 2 && f.device in order && |PartnersOf(commMap, f.device)| > 5
      {
        if f in r0 {
          var j :| 0 <= j < |init| && init[j] == f.device;
          assert order[j] == init[j];
        }
      }
    }
  }

  /** Every device of the order with more than five partners is reported, with its partner count. */
  lemma {:induction false} CrowdFindingsComplete(order: seq<string>, commMap: map<string, set<string>>)
    ensures forall k :: 0 <= k < |order| && |PartnersOf(commMap, order[k])| > 5 ==>
              CrowdFinding(order[k], |PartnersOf(commMap, order[k])|) in CrowdFindings(order, commMap)
    decreases |order|
  {
    if order != [] {
      var init := order[..|order| - 1];
      var a := order[|order| - 1];
      CrowdFindingsComplete(init, commMap);
      var r0 := CrowdFindings(init, commMap);
      var count := |PartnersOf(commMap, a)|;
      var r := r0 + (if count > 5 then [CrowdFinding(a, count)] else []);
      assert CrowdFindings(order, commMap) == r;
      forall k | 0 <= k < |order| && |PartnersOf(commMap, order[k])| > 5
        ensures CrowdFinding(order[k], |PartnersOf(commMap, order[k])|) in r
      {
        if k < |init| {
          assert init[k] == order[k];
          var j :| 0 <= j < |r0| && r0[j] == CrowdFinding(order[k], |PartnersOf(commMap, order[k])|);
          assert r[j] == r0[j];
        } else {
          assert r[|r| - 1] == CrowdFinding(a, count);
        }
      }
    }
  }

  /** One more device in the order adds its finding, if it has more than five partners, at the end. */
  lemma CrowdFindingsStep(order: seq<string>, i: nat, commMap: map<string, set<string>>)
    requires i < |order|
    ensures CrowdFindings(order[..i + 1], commMap)
         == CrowdFindings(order[..i], commMap)
            + (if |PartnersOf(commMap, order[i])| > 5 then [CrowdFinding(order[i], |PartnersOf(commMap, order[i])|)] else [])
  {
    assert order[..i + 1][..i] == order[..i];
  }

  /** The findings depend only on the partner sets of the devices in the order. */
  lemma {:induction false} CrowdFindingsAgree(order: seq<string>, m1: map<string, set<string>>, m2: map<string, set<string>>)
    requires forall k :: 0 <= k < |order| ==> PartnersOf(m1, order[k]) == PartnersOf(m2, order[k])
    ensures CrowdFindings(order, m1) == CrowdFindings(order, m2)
    decreases |order|
  {
    if order != [] {
      var init := order[..|order| - 1];
      assert forall k :: 0 <= k < |init| ==> init[k] == order[k];
      CrowdFindingsAgree(init, m1, m2);
    }
  }

  // ---------------------------------------------------------------- end-of-capture checks

  const UNENCRYPTED_TRAFFIC := "Device communicates without encryption"
  const OutdatedTlsVersions: set<string> := {"0x0301", "0x0300"}

  function SensitiveServiceFinding(addr: string, service: string): Vulnerability {
    Vulnerability("Sensitive service " + service + " offered without encryption", addr, 4)
  }

  /** One finding per sensitive service of an unencrypted device, in service order. */
  function SensitiveServiceFindings(addr: string, services: seq<string>, encrypted: bool): (r: seq<Vulnerability>)
    ensures encrypted ==> r == []
    ensures forall k :: 0 <= k < |r| ==>
              r[k].device == addr && r[k].severity == 4 && StartsWith(r[k].description, "Sensitive")
    ensures forall k :: 0 <= k < |services| && IsSensitiveService(services[k]) && !encrypted ==>
              SensitiveServiceFinding(addr, services[k]) in r
    decreases |services|
  {
    if services == [] then []
    else
      var last := services[|services| - 1];
      var init := SensitiveServiceFindings(addr, services[..|services| - 1], encrypted);
      var f := SensitiveServiceFinding(addr, last);
      assert f.description[..9] == "Sensitive";
      forall k | 0 <= k < |services| - 1 && IsSensitiveService(services[k]) && !encrypted
        ensures SensitiveServiceFinding(addr, services[k]) in init
      {
        assert services[k] == services[..|services| - 1][k];
      }
      init + (if IsSensitiveService(last) && !encrypted then [f] else [])
  }

  /** Extending the service list by one service adds at most that service's finding, at the end. */
  lemma SensitiveServiceFindingsStep(addr: string, services: seq<string>, k: nat, encrypted: bool)
    requires k < |services|
    ensures SensitiveServiceFindings(addr, services[..k + 1], encrypted)
         == SensitiveServiceFindings(addr, services[..k], encrypted)
            + (if IsSensitiveService(services[k]) && !encrypted then [SensitiveServiceFinding(addr, services[k])] else [])
  {
    assert services[..k + 1][..k] == services[..k];
  }

  /** Every sensitive-service finding names a sensitive service of the list, for an unencrypted device. */
  lemma {:induction false} SensitiveServiceFindingsSound(addr: string, services: seq<string>, encrypted: bool)
    ensures forall v :: v in SensitiveServiceFindings(addr, services, encrypted) ==>
              !encrypted && exists k :: 0 <= k < |services| && IsSensitiveService(services[k])
                                        && v == SensitiveServiceFinding(addr, services[k])
    decreases |services|
  {
    if services != [] {
      var init := services[..|services| - 1];
      var last := services[|services| - 1];
      SensitiveServiceFindingsSound(addr, init, encrypted);
      forall v | v in SensitiveServiceFindings(addr, services, encrypted)
        ensures !encrypted && exists k :: 0 <= k < |services| && IsSensitiveService(services[k])
                                          && v == SensitiveServiceFinding(addr, services[k])
      {
        if v in SensitiveServiceFindings(addr, init, encrypted) {
          var k :| 0 <= k < |init| && IsSensitiveService(init[k]) && v == SensitiveServiceFinding(addr, init[k]);
          assert services[k] == init[k];
        } else {
          assert v == SensitiveServiceFinding(addr, services[|services| - 1]);
        }
      }
    }
  }

  const TLS_FINDING_PREFIX := "Using outdated TLS/SSL version: "

  /** The findings `_check_for_vulnerabilities` raises about one device, in the order it raises them. */
  function DeviceFindings(addr: string, d: Device): (r: seq<Vulnerability>)
    ensures forall k :: 0 <= k < |r| ==> r[k].device == addr && r[k].severity == 4
  {
    var traffic := if !d.encryptionEnabled && d.packetCount > 20 then [Vulnerability(UNENCRYPTED_TRAFFIC, addr, 4)] else [];
    var tls := if d.sslTlsVersion.Some? && d.sslTlsVersion.value in OutdatedTlsVersions
               then [Vulnerability(TLS_FINDING_PREFIX + d.sslTlsVersion.value, addr, 4)] else [];
    traffic + tls + SensitiveServiceFindings(addr, d.services, d.encryptionEnabled)
  }

  /**
   * The unencrypted-traffic finding is raised exactly for a device not known
   * to be encrypted that has sent more than 20 packets.
   */
  lemma UnencryptedTrafficReported(addr: string, d: Device)
    ensures !d.encryptionEnabled && d.packetCount > 20 <==> Vulnerability(UNENCRYPTED_TRAFFIC, addr, 4) in DeviceFindings(addr, d)
  {
    var traffic := if !d.encryptionEnabled && d.packetCount > 20 then [Vulnerability(UNENCRYPTED_TRAFFIC, addr, 4)] else [];
    var tls := if d.sslTlsVersion.Some? && d.sslTlsVersion.value in OutdatedTlsVersions
               then [Vulnerability(TLS_FINDING_PREFIX + d.sslTlsVersion.value, addr, 4)] else [];
    var services := SensitiveServiceFindings(addr, d.services, d.encryptionEnabled);
    var v := Vulnerability(UNENCRYPTED_TRAFFIC, addr, 4);
    assert DeviceFindings(addr, d) == traffic + tls + services;
    assert UNENCRYPTED_TRAFFIC[..9] == "Device co";
    assert v !in tls by {
      if tls != [] {
        assert tls[0].description[..9] == "Using out";
      }
    }
    assert v !in services by {
      assert !StartsWith(UNENCRYPTED_TRAFFIC, "Sensitive");
    }
  }

  /**
   * The TLS finding is raised exactly for a device whose recorded TLS/SSL
   * version is 0x0301 (TLS 1.0) or 0x0300 (SSL 3.0), naming that version.
   */
  lemma OutdatedTlsReported(addr: string, d: Device, version: string)
    ensures Vulnerability(TLS_FINDING_PREFIX + version, addr, 4) in DeviceFindings(addr, d)
            <==> d.sslTlsVersion == Some(version) && version in OutdatedTlsVersions
  {
    var traffic := if !d.encryptionEnabled && d.packetCount > 20 then [Vulnerability(UNENCRYPTED_TRAFFIC, addr, 4)] else [];
    var tls := if d.sslTlsVersion.Some? && d.sslTlsVersion.value in OutdatedTlsVersions
               then [Vulnerability(TLS_FINDING_PREFIX + d.sslTlsVersion.value, addr, 4)] else [];
    var services := SensitiveServiceFindings(addr, d.services, d.encryptionEnabled);
    var v := Vulnerability(TLS_FINDING_PREFIX + version, addr, 4);
    assert DeviceFindings(addr, d) == traffic + tls + services;
    assert v.description[0] == 'U';
    assert v !in traffic by {
      assert UNENCRYPTED_TRAFFIC[0] == 'D';
    }
    assert v !in services by {
      forall k | 0 <= k < |services|
        ensures services[k] != v
      {
        assert services[k].description[..9] == "Sensitive";
      }
    }
    if v in tls {
      assert v.description[|TLS_FINDING_PREFIX|..] == version;
      assert tls[0].description[|TLS_FINDING_PREFIX|..] == d.sslTlsVersion.value;
    }
  }

  function Descriptions(vs: seq<Vulnerability>): (r: seq<string>)
    ensures |r| == |vs| && forall k :: 0 <= k < |vs| ==> r[k] == vs[k].description
  {
    seq(|vs|, k requires 0 <= k < |vs| => vs[k].description)
  }

  /** All findings of `_check_for_vulnerabilities`, device by device in registration order. */
  function CheckFindings(order: seq<string>, devices: map<string, Device>): (r: seq<Vulnerability>)
    requires forall k :: 0 <= k < |order| ==> order[k] in devices
    ensures forall k :: 0 <= k < |r| ==> r[k].severity == 4
    decreases |order|
  {
    if order == [] then []
    else
      var a := order[|order| - 1];
      CheckFindings(order[..|order| - 1], devices) + DeviceFindings(a, devices[a])
  }

  /** Every finding of the check is a severity-4 finding about a device of the order. */
  lemma {:induction false} CheckFindingsReported(order: seq<string>, devices: map<string, Device>)
    requires forall k :: 0 <= k < |order| ==> order[k] in devices
    ensures forall f :: f in CheckFindings(order, devices) ==> f.device in order && f.severity == 4
    decreases |order|
  {
    if order != [] {
      var init := order[..|order| - 1];
      var a := order[|order| - 1];
      CheckFindingsReported(init, devices);
      var r0 := CheckFindings(init, devices);
      var r := r0 + DeviceFindings(a, devices[a]);
      assert CheckFindings(order, devices) == r;
      forall f | f in r
        ensures f.device in order && f.severity == 4
      {
        if f in r0 {
          var j :| 0 <= j < |init| && init[j] == f.device;
          assert order[j] == init[j];
        }
      }
    }
  }

  /** Every finding of `part` is also a finding of `whole`. */
  predicate FindingsIn(part: seq<Vulnerability>, whole: seq<Vulnerability>) {
    forall k :: 0 <= k < |part| ==> part[k] in whole
  }

  /** Findings contained in a list stay contained when more are appended, and the appended ones are contained. */
  lemma FindingsInAppend(part: seq<Vulnerability>, whole: seq<Vulnerability>, more: seq<Vulnerability>)
    ensures FindingsIn(part, whole) ==> FindingsIn(part, whole + more)
    ensures FindingsIn(more, whole + more)
  {
    forall k | 0 <= k < |more| ensures more[k] in whole + more {
      assert (whole + more)[|whole| + k] == more[k];
    }
  }

  /** Every finding `DeviceFindings` lists for a device of the order is among the check's findings. */
  lemma {:induction false} CheckFindingsComplete(order: seq<string>, devices: map<string, Device>)
    requires forall k :: 0 <= k < |order| ==> order[k] in devices
    ensures forall k :: 0 <= k < |order| ==>
              FindingsIn(DeviceFindings(order[k], devices[order[k]]), CheckFindings(order, devices))
    decreases |order|
  {
    if order != [] {
      var init := order[..|order| - 1];
      var a := order[|order| - 1];
      CheckFindingsComplete(init, devices);
      var r0 := CheckFindings(init, devices);
      var more := DeviceFindings(a, devices[a]);
      assert CheckFindings(order, devices) == r0 + more;
      forall k | 0 <= k < |order|
        ensures FindingsIn(DeviceFindings(order[k], devices[order[k]]), r0 + more)
      {
        FindingsInAppend(DeviceFindings(order[k], devices[order[k]]), r0, more);
        if k < |init| {
          assert order[k] == init[k];
        }
      }
    }
  }
}
