/**
 * The session object of Babbi.py, `BluetoothSecurityAnalyzer`: the device
 * registry, the vulnerability ledger, the connection- and pairing-phase
 * records, the SMP, HCI and BLE packet handlers that update them, and the
 * end-of-capture passes (partner graph, vulnerability checks, risk score).
 *
 * A packet layer is a map from field names to values: `hasattr(layer, f)` is
 * `f in layer` and `getattr(layer, f)` is `layer[f]`. A Python exception that
 * escapes a handler (a `KeyError` from indexing a dictionary with a missing
 * key, a `ValueError` from `int()`) is the `raised` result: the handler stops
 * there, and the changes it made before that point remain, as they do when
 * the per-packet `except` in `analyze` swallows the exception.
 */
module Analyzer {
  import opened Wrappers
  import opened Text
  import opened ProtocolDecoders
  import opened Ledger
  import opened SecurityState

  /** The fields of one protocol layer. */
  type Fields = map<string, string>

  /** The value of field `name`, or `""` when the layer has none (a falsy address). */
  function FieldOr(layer: Fields, name: string): (v: string)
    ensures name in layer ==> v == layer[name]
    ensures name !in layer ==> v == ""
  {
    if name in layer then layer[name] else ""
  }

  /**
   * A captured packet: its layers by name, its frame number and timestamp
   * when pyshark supplies them, the address `_get_mac_from_packet` finds in
   * it (`""` for none), and the values of the BLE layer's UUID fields in the
   * order `dir()` lists them.
   */
  datatype Packet = Packet(
    layers: map<string, Fields>,
    number: Option<string>,
    sniffTimestamp: Option<string>,
    mac: string,
    advertisedUuids: seq<string>)

  /** `getattr(packet, 'number', 'unknown')`. */
  function PacketNumber(p: Packet): string {
    p.number.GetOr("unknown")
  }

  /** The connection handle carried by the packet's HCI event layer, if any. */
  function EventConnectionHandle(p: Packet): Option<string> {
    if "bthci_evt" in p.layers && "connection_handle" in p.layers["bthci_evt"]
    then Some(p.layers["bthci_evt"]["connection_handle"])
    else None
  }

  /** The address a tracker works on: the one it was given, else the packet's own. */
  function TrackedAddress(deviceAddr: string, mac: string): (r: string)
    ensures r == "" <==> deviceAddr == "" && mac == ""
    ensures deviceAddr != "" ==> r == deviceAddr
  {
    if deviceAddr != "" then deviceAddr else mac
  }

  const NO_MITM := "No MITM protection in pairing request"
  const JUST_WORKS := "Using 'Just Works' pairing - vulnerable to MITM attacks"
  const PUBLIC_IDENTITY := "Using public identity address with LTK - privacy concern"
  const PUBLIC_ADDRESS := "Device using public address - privacy concern"
  const WRITE_SENSITIVE := "Write to sensitive GATT handle without encryption"
  const UNENCRYPTED_WRITES := "Unencrypted GATT writes"
  const READ_SENSITIVE := "Read from sensitive GATT handle without encryption"

  function WeakKeyFinding(keySize: int): string {
    "Weak encryption key size (" + IntToString(keySize) + " bytes)"
  }

  /** The SMP command a layer carries; a layer without an opcode carries none. */
  function SmpCommandOfLayer(layer: Fields): (c: SmpCommand)
    ensures c != OtherCmd ==> "opcode" in layer && layer["opcode"] in SmpOpcodeSpellings
  {
    SmpCommandRecognised(FieldOr(layer, "opcode"));
    if "opcode" in layer then SmpCommandOf(layer["opcode"]) else OtherCmd
  }

  /** The responder I/O capabilities the pairing-response check reads as Just Works. */
  predicate IsJustWorksCode(ioCap: string) {
    ioCap == "0x03" || ioCap == "3"
  }

  /** The entry `_register_device` leaves under `key`: created if new, then counted and stamped. */
  function Touched(devices: map<string, Device>, key: string, now: string): (d: Device)
    ensures d.packetCount == (if key in devices then devices[key].packetCount else 0) + 1
    ensures key !in devices ==> !d.encryptionEnabled && d.packetCount == 1
    ensures key in devices ==> d == devices[key].(packetCount := d.packetCount, lastSeen := now)
  {
    var d := if key in devices then devices[key] else NewDevice(now);
    d.(packetCount := d.packetCount + 1, lastSeen := now)
  }

  /** A packet-number table after `num` is appended to the list of phase `p`. */
  function AppendNumber<P>(numbers: map<P, seq<string>>, p: P, num: string): (r: map<P, seq<string>>)
    ensures r.Keys == numbers.Keys + {p}
    ensures r[p] == (if p in numbers then numbers[p] else []) + [num]
    ensures forall q :: q in numbers && q != p ==> r[q] == numbers[q]
  {
    numbers[p := (if p in numbers then numbers[p] else []) + [num]]
  }

  /**
   * `connection_phases[addr]` after `_track_connection_phase` records `phase`:
   * created if new, the phase set, and the packet number appended unless it
   * is `'unknown'`.
   */
  function ConnTracked(phases: map<string, ConnState>, addr: string, phase: ConnPhase, num: string, ts: Option<string>)
    : (c: ConnState)
    ensures c.reached == (if addr in phases then phases[addr].reached else {}) + {phase}
    ensures addr in phases ==> c.firstSeen == phases[addr].firstSeen
    ensures (addr in phases ==> phases[addr].packetNumbers.Keys == AllConnPhases) ==> c.packetNumbers.Keys == AllConnPhases
    ensures var before := if addr in phases then phases[addr].packetNumbers else NewConnState(ts).packetNumbers;
            c.packetNumbers == if num == "unknown" then before else AppendNumber(before, phase, num)
  {
    var c := if addr in phases then phases[addr] else NewConnState(ts);
    assert phase in AllConnPhases by {
      assert phase.Advertisement? || phase.ScanRequest? || phase.ScanResponse?
          || phase.ConnectionRequest? || phase.ConnectionComplete?;
    }
    c.(reached := c.reached + {phase},
       packetNumbers := if num == "unknown" then c.packetNumbers else AppendNumber(c.packetNumbers, phase, num))
  }

  /** `pairing_phases[addr]` after `_track_pairing_phase` records `phase`, likewise. */
  function PairTracked(phases: map<string, PairState>, addr: string, phase: PairPhase, num: string, ts: Option<string>)
    : (s: PairState)
    ensures s.reached == (if addr in phases then phases[addr].reached else {}) + {phase}
    ensures addr in phases ==> PairFlagsGrow(phases[addr], s) && s == phases[addr].(reached := s.reached, packetNumbers := s.packetNumbers)
    ensures addr !in phases ==> s == NewPairState(ts).(reached := {phase}, packetNumbers := s.packetNumbers)
    ensures (addr in phases ==> phases[addr].packetNumbers.Keys == AllPairPhases) ==> s.packetNumbers.Keys == AllPairPhases
    ensures var before := if addr in phases then phases[addr].packetNumbers else NewPairState(ts).packetNumbers;
            s.packetNumbers == if num == "unknown" then before else AppendNumber(before, phase, num)
  {
    var s := if addr in phases then phases[addr] else NewPairState(ts);
    assert phase in AllPairPhases by {
      assert phase.SecurityRequest? || phase.PairingRequest? || phase.PairingResponse?
          || phase.KeyDistribution? || phase.EncryptionEnabled?;
    }
    s.(reached := s.reached + {phase},
       packetNumbers := if num == "unknown" then s.packetNumbers else AppendNumber(s.packetNumbers, phase, num))
  }

  /** The flag a Pairing Confirm, Identity Information or Signing Information command sets. */
  function KeyFlagSet(s: PairState, cmd: SmpCommand): (r: PairState)
    ensures PairFlagsGrow(s, r) && r.packetNumbers == s.packetNumbers
    ensures cmd == PairingConfirmCmd ==> r.pairingConfirm
    ensures cmd == IdentityInformationCmd ==> r.irkExchanged
    ensures cmd == SigningInformationCmd ==> r.csrkExchanged
  {
    match cmd
    case PairingConfirmCmd => s.(pairingConfirm := true)
    case IdentityInformationCmd => s.(irkExchanged := true)
    case SigningInformationCmd => s.(csrkExchanged := true)
    case _ => s
  }

  /**
   * A pairing record after a Pairing Request stores the OOB flag and the
   * AuthReq field it carries, and, when AuthReq reads as hex, its MITM bit.
   */
  function PairingRequestRecord(s: PairState, layer: Fields): (r: PairState)
    ensures PairFlagsGrow(s, r) && r.packetNumbers == s.packetNumbers
    ensures r.oobData == if "oob_data_flag" in layer then Some(layer["oob_data_flag"]) else s.oobData
    ensures r.authRequirements == if "auth_req" in layer then Some(layer["auth_req"]) else s.authRequirements
    ensures r.mitmProtection == if "auth_req" in layer && ParseHex(layer["auth_req"]).Some?
                                then Bit(ParseHex(layer["auth_req"]).value, 2)
                                else s.mitmProtection
  {
    var withOob := if "oob_data_flag" in layer then s.(oobData := Some(layer["oob_data_flag"])) else s;
    if "auth_req" !in layer then withOob
    else
      var stored := withOob.(authRequirements := Some(layer["auth_req"]));
      match ParseHex(layer["auth_req"])
      case None => stored
      case Some(flags) => stored.(mitmProtection := Bit(flags, 2))
  }

  /**
   * A pairing request that reports a clear MITM bit: its AuthReq reads as
   * hex with bit 0x04 clear, and the I/O capability write before it did not
   * fail on an unregistered address.
   */
  predicate MitmClearRequest(layer: Fields, registered: bool) {
    var authReq := ParseHex(FieldOr(layer, "auth_req"));
    ("io_capability" !in layer || registered) && "auth_req" in layer && authReq.Some? && !Bit(authReq.value, 2)
  }

  /**
   * The ledger after the SMP command of `layer` from `addr`, given whether
   * `addr` is registered and the ledger before it: a pairing request whose AuthReq
   * reads as hex with the MITM bit (0x04) clear is a severity-4 finding
   * (unless the I/O capability write failed first); a pairing response
   * offering the NoInputNoOutput capability is a severity-5 Just Works
   * finding; a public identity address of a registered device is a
   * severity-2 privacy finding; every other command leaves the ledger alone.
   */
  function SmpCommandLedger(layer: Fields, addr: string, registered: bool, ledger: seq<Vulnerability>)
    : (r: seq<Vulnerability>)
    ensures r == ledger || r == Registered(ledger, NO_MITM, addr, 4) || r == Registered(ledger, JUST_WORKS, addr, 5)
            || r == Registered(ledger, PUBLIC_IDENTITY, addr, 2)
    ensures SmpCommandOfLayer(layer) !in {PairingRequestCmd, PairingResponseCmd, IdentityAddressInformationCmd} ==>
              r == ledger
  {
    match SmpCommandOfLayer(layer)
    case PairingRequestCmd =>
      if MitmClearRequest(layer, registered) then Registered(ledger, NO_MITM, addr, 4) else ledger
    case PairingResponseCmd =>
      if IsJustWorksCode(FieldOr(layer, "io_capability")) then Registered(ledger, JUST_WORKS, addr, 5) else ledger
    case IdentityAddressInformationCmd =>
      if registered && FieldOr(layer, "identity_address_type") == "0"
      then Registered(ledger, PUBLIC_IDENTITY, addr, 2)
      else ledger
    case _ => ledger
  }

  /**
   * Which of the three SMP findings the ledger holds for `addr` after a
   * command: each one it held before, plus the one finding that command's
   * rule raises.
   */
  lemma SmpCommandLedgerRecords(layer: Fields, addr: string, registered: bool, ledger: seq<Vulnerability>)
    ensures var r := SmpCommandLedger(layer, addr, registered, ledger);
            Records(r, NO_MITM, addr) <==>
              Records(ledger, NO_MITM, addr) || (SmpCommandOfLayer(layer) == PairingRequestCmd && MitmClearRequest(layer, registered))
    ensures var r := SmpCommandLedger(layer, addr, registered, ledger);
            Records(r, JUST_WORKS, addr) <==>
              Records(ledger, JUST_WORKS, addr)
              || (SmpCommandOfLayer(layer) == PairingResponseCmd && IsJustWorksCode(FieldOr(layer, "io_capability")))
    ensures var r := SmpCommandLedger(layer, addr, registered, ledger);
            Records(r, PUBLIC_IDENTITY, addr) <==>
              Records(ledger, PUBLIC_IDENTITY, addr)
              || (SmpCommandOfLayer(layer) == IdentityAddressInformationCmd && registered
                  && FieldOr(layer, "identity_address_type") == "0")
  {
    // the three descriptions end in different letters
    assert NO_MITM[|NO_MITM| - 1] == 't' && JUST_WORKS[|JUST_WORKS| - 1] == 's';
    assert PUBLIC_IDENTITY[|PUBLIC_IDENTITY| - 1] == 'n';
    RegisteredRecords(ledger, NO_MITM, addr, 4, JUST_WORKS, addr);
    RegisteredRecords(ledger, NO_MITM, addr, 4, PUBLIC_IDENTITY, addr);
    RegisteredRecords(ledger, JUST_WORKS, addr, 5, NO_MITM, addr);
    RegisteredRecords(ledger, JUST_WORKS, addr, 5, PUBLIC_IDENTITY, addr);
    RegisteredRecords(ledger, PUBLIC_IDENTITY, addr, 2, NO_MITM, addr);
    RegisteredRecords(ledger, PUBLIC_IDENTITY, addr, 2, JUST_WORKS, addr);
  }

  /**
   * The MITM flag a Pairing Request stores is the one the SMP AuthReq
   * decoder reports for the same field: set exactly when the decoder reads
   * MITM protection as required.
   */
  lemma PairingRequestMitmAgreesWithDecoder(s: PairState, layer: Fields)
    requires "auth_req" in layer && ParseHex(layer["auth_req"]).Some?
    ensures PairingRequestRecord(s, layer).mitmProtection
            <==> DecodeSmpAuthRequirements(layer["auth_req"]).mitm == "Required"
  {
  }

  /**
   * For a Pairing Request whose AuthReq reads as hex (and whose I/O
   * capability write did not fail), the no-MITM finding is added exactly
   * when the SMP AuthReq decoder reads MITM protection as not required.
   */
  lemma NoMitmFindingAgreesWithDecoder(layer: Fields, addr: string, registered: bool, ledger: seq<Vulnerability>)
    requires SmpCommandOfLayer(layer) == PairingRequestCmd
    requires "auth_req" in layer && ParseHex(layer["auth_req"]).Some?
    requires "io_capability" !in layer || registered
    requires !Records(ledger, NO_MITM, addr)
    ensures SmpCommandLedger(layer, addr, registered, ledger) != ledger
            <==> DecodeSmpAuthRequirements(layer["auth_req"]).mitm != "Required"
  {
    if !Bit(ParseHex(layer["auth_req"]).value, 2) {
      assert |Registered(ledger, NO_MITM, addr, 4)| == |ledger| + 1;
    }
  }

  /** The pairing phase each of the three pairing-step commands records. */
  function PairPhaseOf(cmd: SmpCommand): PairPhase {
    match cmd
    case SecurityRequestCmd => SecurityRequest
    case PairingRequestCmd => PairingRequest
    case _ => PairingResponse
  }

  /** The timeline step each of those commands logs. */
  function KeyStepOf(cmd: SmpCommand): KeyStep {
    match cmd
    case PairingConfirmCmd => PairingConfirmed
    case IdentityInformationCmd => IrkExchange
    case SigningInformationCmd => CsrkExchange
    case _ => LtkExchange
  }

  /**
   * The timeline entries one SMP command logs for `addr`: the three pairing
   * steps always log their phase; the key-flag commands log a key event when
   * the address has a pairing record (`paired`); Encryption Information logs
   * the key-distribution phase when paired and then an LTK event when the
   * device is registered as well; every other command logs nothing.
   */
  function SmpCommandEvents(cmd: SmpCommand, addr: string, paired: bool, registered: bool): seq<SecurityEvent> {
    match cmd
    case SecurityRequestCmd => [PairingEvent(SecurityRequest, addr, None, "unknown")]
    case PairingRequestCmd => [PairingEvent(PairingRequest, addr, None, "unknown")]
    case PairingResponseCmd => [PairingEvent(PairingResponse, addr, None, "unknown")]
    case EncryptionInformationCmd =>
      if paired then [PairingEvent(PairPhase.KeyDistribution, addr, None, "unknown")]
                     + (if registered then [KeyEvent(LtkExchange, addr)] else [])
      else []
    case IdentityAddressInformationCmd => []
    case OtherCmd => []
    case _ => if paired then [KeyEvent(KeyStepOf(cmd), addr)] else []
  }

  /**
   * The registry after one SMP command for `addr`: a pairing request stores
   * the initiator's I/O capability, Encryption Information of a paired device
   * marks it as holding an LTK, Identity Address Information stores the
   * identity address type; an unregistered address keeps the registry as it is.
   */
  function SmpCommandDevices(cmd: SmpCommand, layer: Fields, addr: string, paired: bool,
                             devices: map<string, Device>): map<string, Device> {
    if addr !in devices then devices
    else match cmd
      case PairingRequestCmd =>
        if "io_capability" in layer then devices[addr := devices[addr].(pairingMethod := Some(layer["io_capability"]))]
        else devices
      case EncryptionInformationCmd =>
        if paired then devices[addr := devices[addr].(hasLtk := true)] else devices
      case IdentityAddressInformationCmd =>
        if "identity_address_type" in layer
        then devices[addr := devices[addr].(identityAddressType := Some(layer["identity_address_type"]))]
        else devices
      case _ => devices
  }

  /**
   * The pairing records after one SMP command for `addr`, given whether
   * `addr` is registered: the three pairing steps track their phase and then
   * store what the command carries (the requested security level when it
   * reads as hex; the OOB flag, AuthReq and its MITM bit unless the I/O
   * capability write failed first; the responder's I/O capability);
   * Encryption Information of a paired address marks the LTK exchange and
   * tracks the key-distribution phase; the key-flag commands set their flag
   * on an existing record; every other command leaves the records alone.
   */
  function SmpCommandPairing(cmd: SmpCommand, layer: Fields, addr: string, registered: bool,
                             phases: map<string, PairState>): map<string, PairState> {
    match cmd
    case SecurityRequestCmd =>
      var tracked := PairTracked(phases, addr, SecurityRequest, "unknown", None);
      var level := ParseHex(FieldOr(layer, "authentication"));
      phases[addr := if "authentication" in layer && level.Some? then tracked.(requestedSecurityLevel := level)
                     else tracked]
    case PairingRequestCmd =>
      var tracked := PairTracked(phases, addr, PairingRequest, "unknown", None);
      phases[addr := if "io_capability" in layer && !registered then tracked else PairingRequestRecord(tracked, layer)]
    case PairingResponseCmd =>
      var tracked := PairTracked(phases, addr, PairingResponse, "unknown", None);
      phases[addr := if "io_capability" in layer then tracked.(responderIoCapability := Some(layer["io_capability"]))
                     else tracked]
    case EncryptionInformationCmd =>
      if addr in phases then
        var record := phases[addr];
        var marked := record.(ltkExchanged := true, reached := record.reached + {PairPhase.KeyDistribution});
        phases[addr := PairTracked(phases[addr := marked], addr, PairPhase.KeyDistribution, "unknown", None)]
      else phases
    case IdentityAddressInformationCmd => phases
    case OtherCmd => phases
    case _ => if addr in phases then phases[addr := KeyFlagSet(phases[addr], cmd)] else phases
  }

  /**
   * Whether the handler of one SMP command for `addr` raises, given whether
   * `addr` is registered and has a pairing record: a Security Request whose
   * `authentication` is not hex; a Pairing Request carrying an I/O capability
   * for an unregistered address, or a non-hex AuthReq; a key-flag command
   * without a pairing record; Encryption Information without a pairing record
   * or device; Identity Address Information with a type for an unregistered
   * address. Pairing Responses and unrecognised commands never raise.
   */
  function SmpCommandRaises(cmd: SmpCommand, layer: Fields, registered: bool, paired: bool): bool {
    match cmd
    case SecurityRequestCmd => "authentication" in layer && ParseHex(layer["authentication"]).None?
    case PairingRequestCmd =>
      ("io_capability" in layer && !registered) || ("auth_req" in layer && ParseHex(layer["auth_req"]).None?)
    case PairingResponseCmd => false
    case EncryptionInformationCmd => !paired || !registered
    case IdentityAddressInformationCmd => "identity_address_type" in layer && !registered
    case OtherCmd => false
    case _ => !paired
  }

  /**
   * An SMP command touches no pairing record but that of `addr`, lowers no
   * flag, and leaves `addr` with a record after each pairing step.
   */
  lemma SmpCommandPairingGrows(cmd: SmpCommand, layer: Fields, addr: string, registered: bool,
                               phases: map<string, PairState>)
    ensures var r := SmpCommandPairing(cmd, layer, addr, registered, phases);
            && PairingGrows(phases, r)
            && r.Keys == phases.Keys + (if cmd in {SecurityRequestCmd, PairingRequestCmd, PairingResponseCmd} then {addr} else {})
            && (forall a :: a in phases && a != addr ==> r[a] == phases[a])
  {
    var r := SmpCommandPairing(cmd, layer, addr, registered, phases);
    match cmd
    case EncryptionInformationCmd =>
      if addr in phases {
        var record := phases[addr];
        var marked := record.(ltkExchanged := true, reached := record.reached + {PairPhase.KeyDistribution});
        var tracked := PairTracked(phases[addr := marked], addr, PairPhase.KeyDistribution, "unknown", None);
        assert PairFlagsGrow(marked, tracked);
        PairingGrowsByUpdate(phases, addr, tracked);
      }
    case SecurityRequestCmd =>
      PairingGrowsByUpdate(phases, addr, r[addr]);
    case PairingRequestCmd =>
      PairingGrowsByUpdate(phases, addr, r[addr]);
    case PairingResponseCmd =>
      PairingGrowsByUpdate(phases, addr, r[addr]);
    case IdentityAddressInformationCmd =>
    case OtherCmd =>
    case _ =>
      if addr in phases {
        PairingGrowsByUpdate(phases, addr, r[addr]);
      }
  }

  /**
   * After a Pairing Request whose AuthReq reads as hex, and whose I/O
   * capability write did not fail, the record of `addr` holds that AuthReq and
   * its MITM protection is bit 2 (0x04) of it.
   */
  lemma PairingRequestStoresMitm(layer: Fields, addr: string, registered: bool, phases: map<string, PairState>)
    requires SmpCommandOfLayer(layer) == PairingRequestCmd
    requires "auth_req" in layer && ParseHex(layer["auth_req"]).Some?
    requires "io_capability" !in layer || registered
    ensures var r := SmpCommandPairing(SmpCommandOfLayer(layer), layer, addr, registered, phases);
            && addr in r && PairingRequest in r[addr].reached
            && r[addr].authRequirements == Some(layer["auth_req"])
            && r[addr].mitmProtection == Bit(ParseHex(layer["auth_req"]).value, 2)
  {
  }

  /**
   * No SMP command adds or removes a registry entry or changes any entry's
   * SMP-detected mark or traffic figures; only `addr` can change.
   */
  lemma SmpCommandKeepsRegistry(cmd: SmpCommand, layer: Fields, addr: string, paired: bool,
                                devices: map<string, Device>)
    ensures var r := SmpCommandDevices(cmd, layer, addr, paired, devices);
            && r.Keys == devices.Keys
            && (addr in devices ==> r[addr].smpDetected == devices[addr].smpDetected
                                    && r[addr].packetCount == devices[addr].packetCount
                                    && r[addr].encryptionEnabled == devices[addr].encryptionEnabled)
    ensures var r := SmpCommandDevices(cmd, layer, addr, paired, devices);
            forall a :: a in devices && a != addr ==> r[a] == devices[a]
  {
  }

  /** The registry with the entry of `addr`, when there is one, marked as speaking SMP. */
  function SmpNoted(devices: map<string, Device>, addr: string): (r: map<string, Device>)
    ensures r.Keys == devices.Keys
    ensures addr in devices ==> r[addr] == devices[addr].(smpDetected := true)
    ensures forall a :: a in devices && a != addr ==> r[a] == devices[a]
  {
    if addr in devices then devices[addr := devices[addr].(smpDetected := true)] else devices
  }

  /** A second write to the same key replaces the first. */
  lemma UpdateTwice<K, V>(m: map<K, V>, k: K, x: V, y: V)
    ensures m[k := x][k := y] == m[k := y]
  {
  }

  /** No pairing record disappears and none loses a flag. */
  predicate PairingGrows(before: map<string, PairState>, after: map<string, PairState>) {
    before.Keys <= after.Keys && forall a :: a in before ==> PairFlagsGrow(before[a], after[a])
  }

  lemma PairingGrowsByUpdate(m: map<string, PairState>, addr: string, r: PairState)
    requires addr in m ==> PairFlagsGrow(m[addr], r)
    ensures PairingGrows(m, m[addr := r])
  {
  }

  lemma PairingGrowsTransitive(a: map<string, PairState>, b: map<string, PairState>, c: map<string, PairState>)
    requires PairingGrows(a, b) && PairingGrows(b, c)
    ensures PairingGrows(a, c)
  {
  }

  /** The registry after storing `handle` on the device `addr`; unchanged when there is no such device. */
  function WithHandle(devices: map<string, Device>, addr: string, handle: Option<string>): (r: map<string, Device>)
    ensures r.Keys == devices.Keys
    ensures addr in devices ==> r[addr].connectionHandle == handle
    ensures forall a :: a in devices && a != addr ==> r[a] == devices[a]
  {
    if addr in devices then devices[addr := devices[addr].(connectionHandle := handle)] else devices
  }

  /** The layer `name` of a packet; a packet without one is treated as having an empty layer. */
  function Layer(p: Packet, name: string): (layer: Fields)
    ensures name !in p.layers ==> layer == map[]
  {
    if name in p.layers then p.layers[name] else map[]
  }

  /**
   * `_register_device` lower-cases the address it stores, so looking the
   * address up again as given finds it exactly when it was non-empty and
   * already lower-case.
   */
  lemma FoundAfterRegistering(devices: map<string, Device>, addr: string, now: string)
    requires forall a :: a in devices ==> a != "" && IsLowerCase(a)
    ensures var registered := if addr == "" then devices else devices[ToLower(addr) := Touched(devices, ToLower(addr), now)];
            addr in registered <==> addr != "" && IsLowerCase(addr)
  {
    if addr != "" && !IsLowerCase(addr) {
      assert IsLowerCase(ToLower(addr));
      assert addr != ToLower(addr);
    }
  }

  // ---------------------------------------------------------------- HCI events

  /** `devices.get(addr, {}).get('encryption_enabled', False)`. */
  predicate KnownEncrypted(devices: map<string, Device>, addr: string) {
    addr in devices && devices[addr].encryptionEnabled
  }

  /**
   * What an HCI event says about encryption: an Encryption Change (code
   * `'8'`) with status `'0'` reports whether encryption is now on; any other
   * event reports nothing.
   */
  function EncryptionChange(layer: Fields): (r: Option<bool>)
    ensures r.Some? <==> "status" in layer && layer["status"] == "0" && "code" in layer && layer["code"] == "8"
    ensures r == Some(true) <==> r.Some? && "encryption_enabled" in layer && layer["encryption_enabled"] == "1"
  {
    if "status" in layer && FieldOr(layer, "code") == "8" && layer["status"] == "0"
    then Some(FieldOr(layer, "encryption_enabled") == "1")
    else None
  }

  /**
   * A registry entry after an HCI event about it: the encryption flag is
   * overwritten by an Encryption Change (so it can go back to false), and a
   * key size that reads as a decimal is stored.
   */
  function HciDevice(d: Device, layer: Fields): (r: Device)
    ensures r.encryptionEnabled == EncryptionChange(layer).GetOr(d.encryptionEnabled)
    ensures r.encryptionKeySize == if ParseDec(FieldOr(layer, "enc_key_size")).Some?
                                   then ParseDec(FieldOr(layer, "enc_key_size")) else d.encryptionKeySize
    ensures r == d.(encryptionEnabled := r.encryptionEnabled, encryptionKeySize := r.encryptionKeySize)
  {
    var changed := match EncryptionChange(layer)
                   case Some(enabled) => d.(encryptionEnabled := enabled)
                   case None => d;
    match ParseDec(FieldOr(layer, "enc_key_size"))
    case Some(keySize) => changed.(encryptionKeySize := Some(keySize))
    case None => changed
  }

  // ---------------------------------------------------------------- BLE packets

  /** An entry after its advertising address type is recorded: only a random address (`'1'`) is private. */
  function AddressTyped(d: Device, addrType: string): (r: Device)
    ensures r.usesPrivacy <==> addrType == "1"
    ensures r == d.(addressType := Some(addrType), usesPrivacy := r.usesPrivacy)
  {
    d.(addressType := Some(addrType), usesPrivacy := addrType == "1")
  }

  /** The registry after the LLID-3 pass: every device holding a connection handle is potentially encrypted. */
  function PotentialEncryptionMarked(devices: map<string, Device>): (r: map<string, Device>)
    ensures r.Keys == devices.Keys
    ensures forall a :: a in r ==>
              r[a].potentialEncryption == (devices[a].potentialEncryption || devices[a].connectionHandle.Some?)
              && r[a] == devices[a].(potentialEncryption := r[a].potentialEncryption)
  {
    map a | a in devices :: if devices[a].connectionHandle.Some? then devices[a].(potentialEncryption := true) else devices[a]
  }

  /** Some UUID of `uuids` names a firmware-update service. */
  predicate AnyDfuService(uuids: seq<string>)
    decreases |uuids|
  {
    uuids != [] && (AnyDfuService(uuids[..|uuids| - 1]) || IsDfuService(uuids[|uuids| - 1]))
  }

  lemma {:induction false} AnyDfuServiceWitness(uuids: seq<string>)
    ensures AnyDfuService(uuids) <==> exists k :: 0 <= k < |uuids| && IsDfuService(uuids[k])
    decreases |uuids|
  {
    if uuids != [] {
      var init := uuids[..|uuids| - 1];
      AnyDfuServiceWitness(init);
      if exists k :: 0 <= k < |init| && IsDfuService(init[k]) {
        var k :| 0 <= k < |init| && IsDfuService(init[k]);
        assert uuids[k] == init[k];
      }
      if exists k :: 0 <= k < |uuids| && IsDfuService(uuids[k]) {
        var k :| 0 <= k < |uuids| && IsDfuService(uuids[k]);
        if k < |init| {
          assert init[k] == uuids[k];
        }
      }
    }
  }

  /**
   * An entry after the advertised service UUIDs `uuids` are added to it in
   * turn: each joins the advertised services, and a firmware-update UUID on
   * an encrypted device marks it as offering a DFU service.
   */
  function Advertised(d: Device, uuids: seq<string>): (r: Device)
    ensures forall u :: u in r.advertisedServices <==> u in d.advertisedServices || u in uuids
    ensures r.hasDfuService <==> d.hasDfuService || (d.encryptionEnabled && AnyDfuService(uuids))
    ensures r == d.(advertisedServices := r.advertisedServices, hasDfuService := r.hasDfuService)
    decreases |uuids|
  {
    if uuids == [] then d
    else
      var init := uuids[..|uuids| - 1];
      var u := uuids[|uuids| - 1];
      var p := Advertised(d, init);
      assert uuids == init + [u];
      p.(advertisedServices := p.advertisedServices + {u},
         hasDfuService := p.hasDfuService || (IsDfuService(u) && p.encryptionEnabled))
  }

  /** Advertising one more UUID after a batch. */
  lemma AdvertisedSnoc(d: Device, uuids: seq<string>, u: string)
    ensures Advertised(d, uuids + [u]) == Advertised(Advertised(d, uuids), [u])
  {
    assert (uuids + [u])[..|uuids|] == uuids;
    assert [u][..0] == [];
  }

  /** Advertising the UUIDs up to and including `uuids[i]`. */
  lemma AdvertisedStep(d: Device, uuids: seq<string>, i: nat)
    requires i < |uuids|
    ensures Advertised(d, uuids[..i + 1]) == Advertised(Advertised(d, uuids[..i]), [uuids[i]])
  {
    assert uuids[..i + 1] == uuids[..i] + [uuids[i]];
    AdvertisedSnoc(d, uuids[..i], uuids[i]);
  }

  /** The ledger after one more advertised UUID is checked. */
  lemma AdvertisedLedgerStep(ledger0: seq<Vulnerability>, uuids: seq<string>, i: nat, mac: string, enc: bool,
                             ledger: seq<Vulnerability>, after: seq<Vulnerability>)
    requires i < |uuids|
    requires ledger == RegisterAll(ledger0, AdvertisedServiceFindings(uuids[..i], mac, enc))
    requires after == RegisterAll(ledger, ServiceFindings(uuids[i], mac, enc))
    ensures after == RegisterAll(ledger0, AdvertisedServiceFindings(uuids[..i + 1], mac, enc))
  {
    assert uuids[..i + 1][..i] == uuids[..i];
    RegisterAllAppend(ledger0, AdvertisedServiceFindings(uuids[..i], mac, enc), ServiceFindings(uuids[i], mac, enc));
  }

  // ---------------------------------------------------------------- GATT operations

  const SensitiveWriteOpcodes: set<string> := {"0x12", "0x16", "0x18"}
  const SensitiveReadOpcodes: set<string> := {"0x0A", "0x0C"}

  /** Handles below `0x00FF` are taken for system handles. */
  const SystemHandleLimit := 0xFF

  /** An entry after one more ATT operation `opcode` is counted on it. */
  function GattCounted(d: Device, opcode: string): (r: Device)
    ensures r.gattOperations.Keys == d.gattOperations.Keys + {opcode}
    ensures r.gattOperations[opcode] == (if opcode in d.gattOperations then d.gattOperations[opcode] else 0) + 1
    ensures forall op :: op in d.gattOperations && op != opcode ==> r.gattOperations[op] == d.gattOperations[op]
    ensures r == d.(gattOperations := r.gattOperations)
  {
    d.(gattOperations := d.gattOperations[opcode := (if opcode in d.gattOperations then d.gattOperations[opcode] else 0) + 1])
  }

  /**
   * The finding `_analyze_gatt_operations` raises for the ATT layer `att` of
   * a packet from `mac`, judged on the registry `devices`. A write (Write,
   * Prepare Write, Execute Write) to a registered, unencrypted target (the
   * layer's `dst`, else `mac`) is reported against that target: severity 4
   * below the system-handle limit, 3 above it. A read (Read, Read Blob) of a
   * system handle from a device not known to be encrypted is reported with
   * severity 3. A handle that is not hex, or an unregistered `mac` (whose
   * operation count cannot be kept), ends the analysis without a finding.
   */
  function GattFinding(att: Fields, mac: string, devices: map<string, Device>): (r: Option<Vulnerability>)
    ensures r.Some? ==> "opcode" in att && ParseHex(FieldOr(att, "handle")).Some?
    ensures r.Some? ==> r.value.device in devices && !devices[r.value.device].encryptionEnabled
    ensures r.Some? && att["opcode"] in SensitiveWriteOpcodes ==>
              (r.value.severity == 4 <==> ParseHex(FieldOr(att, "handle")).value < SystemHandleLimit)
              && r.value.device == (if "dst" in att then att["dst"] else mac)
    ensures r.Some? && att["opcode"] !in SensitiveWriteOpcodes ==>
              att["opcode"] in SensitiveReadOpcodes && ParseHex(FieldOr(att, "handle")).value < SystemHandleLimit
              && r.value == Vulnerability(READ_SENSITIVE, mac, 3)
    ensures r.Some? ==> 3 <= r.value.severity <= 4
    ensures "opcode" in att && mac != "" && mac !in devices ==> r == None
    ensures "opcode" in att && att["opcode"] in SensitiveWriteOpcodes && (mac == "" || mac in devices) ==>
              var target := if "dst" in att then att["dst"] else mac;
              var handle := ParseHex(FieldOr(att, "handle"));
              target != "" && target in devices && !devices[target].encryptionEnabled && handle.Some? ==>
                r == Some(if handle.value < SystemHandleLimit then Vulnerability(WRITE_SENSITIVE, target, 4)
                          else Vulnerability(UNENCRYPTED_WRITES, target, 3))
    ensures "opcode" in att && att["opcode"] in SensitiveReadOpcodes && mac != "" && mac in devices && !KnownEncrypted(devices, mac) ==>
              var handle := ParseHex(FieldOr(att, "handle"));
              handle.Some? && handle.value < SystemHandleLimit ==> r == Some(Vulnerability(READ_SENSITIVE, mac, 3))
  {
    if "opcode" !in att || (mac != "" && mac !in devices) then None
    else
      var opcode := att["opcode"];
      var handle := ParseHex(FieldOr(att, "handle"));
      if opcode in SensitiveWriteOpcodes then
        var target := if "dst" in att then att["dst"] else mac;
        if target != "" && target in devices && !devices[target].encryptionEnabled && handle.Some? then
          Some(if handle.value < SystemHandleLimit then Vulnerability(WRITE_SENSITIVE, target, 4)
               else Vulnerability(UNENCRYPTED_WRITES, target, 3))
        else None
      else if opcode in SensitiveReadOpcodes && handle.Some? && handle.value < SystemHandleLimit
              && mac != "" && !KnownEncrypted(devices, mac) then
        Some(Vulnerability(READ_SENSITIVE, mac, 3))
      else None
  }

  /** Counting an operation on a device changes no finding: the rules read only keys and encryption flags. */
  lemma GattFindingIgnoresCounts(att: Fields, mac: string, devices: map<string, Device>, addr: string)
    requires "opcode" in att && addr in devices
    ensures GattFinding(att, mac, devices[addr := GattCounted(devices[addr], att["opcode"])]) == GattFinding(att, mac, devices)
  {
  }

  /**
   * The read rule compares opcodes case-sensitively against upper-case hex:
   * a Read written `0x0A` is checked, the same Read written `0x0a` is not.
   */
  lemma GattReadRuleIsCaseSensitive(devices: map<string, Device>, mac: string)
    requires mac != "" && mac in devices && !devices[mac].encryptionEnabled
    ensures GattFinding(map["opcode" := "0x0A", "handle" := "0x03"], mac, devices)
         == Some(Vulnerability(READ_SENSITIVE, mac, 3))
    ensures GattFinding(map["opcode" := "0x0a", "handle" := "0x03"], mac, devices) == None
  {
    var upper: Fields := map["opcode" := "0x0A", "handle" := "0x03"];
    var lower: Fields := map["opcode" := "0x0a", "handle" := "0x03"];
    ParseHexTwoDigits('0', '3');
    assert ParseHex(FieldOr(upper, "handle")) == Some(3) by {
      assert FieldOr(upper, "handle") == ['0', 'x', '0', '3'];
    }
    assert "0x0A" !in SensitiveWriteOpcodes by {
      assert "0x0A"[2] != "0x12"[2] && "0x0A"[2] != "0x16"[2] && "0x0A"[2] != "0x18"[2];
    }
    assert "0x0a" !in SensitiveWriteOpcodes + SensitiveReadOpcodes by {
      assert "0x0a"[2] != "0x12"[2] && "0x0a"[2] != "0x16"[2] && "0x0a"[2] != "0x18"[2];
      assert "0x0a"[3] != "0x0A"[3] && "0x0a"[3] != "0x0C"[3];
    }
  }

  // ---------------------------------------------------------------- partner graph

  /** Partnership is symmetric and no address is its own partner. */
  ghost predicate SymmetricGraph(graph: map<string, set<string>>) {
    forall a, b :: SymmetricAt(graph, a, b)
  }

  /** The partner `b` of `a`, if it is one, is a different address that has `a` as a partner in turn. */
  predicate SymmetricAt(graph: map<string, set<string>>, a: string, b: string) {
    a in graph && b in graph[a] ==> a != b && b in graph && a in graph[b]
  }

  /**
   * The partner graph after `_analyze_communication_patterns`: every
   * registered device has an entry, and devices sharing a connection handle
   * are added as partners of each other.
   */
  function LinkedGraph(graph: map<string, set<string>>, devices: map<string, Device>): (r: map<string, set<string>>)
    ensures r.Keys == graph.Keys + devices.Keys
    ensures forall a :: a in r ==> r[a] == PartnersOf(graph, a) + Partners(devices, a)
  {
    map a | a in graph.Keys + devices.Keys :: PartnersOf(graph, a) + Partners(devices, a)
  }

  /** Linking keeps the graph symmetric and free of self-loops. */
  lemma LinkedGraphSymmetric(graph: map<string, set<string>>, devices: map<string, Device>)
    requires SymmetricGraph(graph)
    ensures SymmetricGraph(LinkedGraph(graph, devices))
  {
    var r := LinkedGraph(graph, devices);
    forall a, b
      ensures SymmetricAt(r, a, b)
    {
      if a in r && b in r[a] {
        LinkedGraphSymmetricPair(graph, devices, a, b);
      }
    }
  }

  lemma LinkedGraphSymmetricPair(graph: map<string, set<string>>, devices: map<string, Device>, a: string, b: string)
    requires SymmetricGraph(graph)
    requires a in LinkedGraph(graph, devices) && b in LinkedGraph(graph, devices)[a]
    ensures a != b && b in LinkedGraph(graph, devices) && a in LinkedGraph(graph, devices)[b]
  {
    if Linked(devices, a, b) {
      assert b in devices && Linked(devices, b, a);
    } else {
      assert b in PartnersOf(graph, a);
      assert SymmetricAt(graph, a, b);
      assert b in graph && a in PartnersOf(graph, b);
    }
  }

  /** From an empty graph, two addresses end up partners exactly when they are different devices sharing a handle. */
  lemma LinkedGraphFromEmpty(devices: map<string, Device>, a: string, b: string)
    requires a in devices
    ensures b in LinkedGraph(map[], devices)[a] <==> Linked(devices, a, b)
  {
  }

  /**
   * The pairs the nested loops of `_analyze_communication_patterns` have
   * visited once the outer loop is at position `i` of `order` and the inner
   * one at position `j`: every pair whose first element comes before `i`,
   * and the pairs of `order[i]` with the addresses before `j`.
   */
  predicate Visited(order: seq<string>, i: nat, j: nat, a: string, b: string)
    requires i <= |order| && j <= |order|
  {
    a in order[..i] || (i < |order| && a == order[i] && b in order[..j])
  }

  /**
   * The partner graph part-way through those loops, starting from `g0`:
   * `b` is a partner of `a` when it was before, or when the two are linked
   * and the pair has been visited in either order.
   */
  ghost predicate LinkedSoFar(graph: map<string, set<string>>, g0: map<string, set<string>>,
                        devices: map<string, Device>, order: seq<string>, i: nat, j: nat)
    requires i <= |order| && j <= |order|
  {
    && (forall a :: a in g0 ==> a in graph)
    && (forall a :: a in graph ==> a in g0 || a in devices)
    && forall a, b :: PairLinkedSoFar(graph, g0, devices, order, i, j, a, b)
  }

  /** The partner relation of `LinkedSoFar` for one pair of addresses. */
  ghost predicate PairLinkedSoFar(graph: map<string, set<string>>, g0: map<string, set<string>>,
                                  devices: map<string, Device>, order: seq<string>, i: nat, j: nat, a: string, b: string)
    requires i <= |order| && j <= |order|
  {
    b in PartnersOf(graph, a) <==>
      b in PartnersOf(g0, a) || (Linked(devices, a, b) && (Visited(order, i, j, a, b) || Visited(order, i, j, b, a)))
  }

  /** `communication_map[a].add(b)` followed by `communication_map[b].add(a)`. */
  function LinkPair(graph: map<string, set<string>>, a: string, b: string): (r: map<string, set<string>>)
    ensures r.Keys == graph.Keys + {a, b}
    ensures forall x, y :: y in PartnersOf(r, x) <==> y in PartnersOf(graph, x) || (x == a && y == b) || (x == b && y == a)
  {
    var g1 := graph[a := PartnersOf(graph, a) + {b}];
    g1[b := PartnersOf(g1, b) + {a}]
  }

  /** One step of the inner loop moves `LinkedSoFar` from the pair (i, j) to (i, j + 1). */
  lemma LinkStep(graph: map<string, set<string>>, next: map<string, set<string>>, g0: map<string, set<string>>,
                 devices: map<string, Device>, order: seq<string>, i: nat, j: nat)
    requires i < |order| && j < |order|
    requires LinkedSoFar(graph, g0, devices, order, i, j)
    requires next == if Linked(devices, order[i], order[j]) then LinkPair(graph, order[i], order[j]) else graph
    ensures LinkedSoFar(next, g0, devices, order, i, j + 1)
  {
    var a0, b0 := order[i], order[j];
    assert order[..j + 1] == order[..j] + [b0];
    var j1 := j + 1;
    forall a, b
      ensures PairLinkedSoFar(next, g0, devices, order, i, j1, a, b)
    {
      assert PairLinkedSoFar(graph, g0, devices, order, i, j, a, b);
      assert Visited(order, i, j + 1, a, b) <==> Visited(order, i, j, a, b) || (a == a0 && b == b0);
      assert Visited(order, i, j + 1, b, a) <==> Visited(order, i, j, b, a) || (b == a0 && a == b0);
    }
  }

  /** Once the inner loop has seen every device, the outer one moves on to the next position. */
  lemma LinkRowDone(graph: map<string, set<string>>, g0: map<string, set<string>>,
                    devices: map<string, Device>, order: seq<string>, i: nat)
    requires i < |order|
    requires forall b :: b in devices ==> b in order
    requires LinkedSoFar(graph, g0, devices, order, i, |order|)
    ensures LinkedSoFar(graph, g0, devices, order, i + 1, 0)
  {
    assert order[..|order|] == order;
    assert order[..i + 1] == order[..i] + [order[i]];
    var next := i + 1;
    forall a, b
      ensures PairLinkedSoFar(graph, g0, devices, order, next, 0, a, b)
    {
      assert PairLinkedSoFar(graph, g0, devices, order, i, |order|, a, b);
      if Linked(devices, a, b) {
        assert a in order && b in order;
      }
    }
  }

  /** `communication_map[a]` read through the default dictionary, which creates an empty entry for a new key. */
  function EnsureEntry(graph: map<string, set<string>>, a: string): (r: map<string, set<string>>)
    ensures r.Keys == graph.Keys + {a}
    ensures forall x :: PartnersOf(r, x) == PartnersOf(graph, x)
  {
    if a in graph then graph else graph[a := {}]
  }

  /** Creating an empty entry for a device changes no partner set. */
  lemma LinkedSoFarEntry(graph: map<string, set<string>>, g0: map<string, set<string>>,
                         devices: map<string, Device>, order: seq<string>, i: nat, a: string)
    requires i <= |order| && a in devices
    requires LinkedSoFar(graph, g0, devices, order, i, 0)
    ensures LinkedSoFar(EnsureEntry(graph, a), g0, devices, order, i, 0)
  {
    forall x, y
      ensures PairLinkedSoFar(EnsureEntry(graph, a), g0, devices, order, i, 0, x, y)
    {
      assert PairLinkedSoFar(graph, g0, devices, order, i, 0, x, y);
    }
  }

  /**
   * Linking the device at position `i` leaves the partner sets of the
   * devices before it alone: theirs were complete already.
   */
  lemma RowsKept(prev: map<string, set<string>>, next: map<string, set<string>>, g0: map<string, set<string>>,
                 devices: map<string, Device>, order: seq<string>, i: nat)
    requires i < |order|
    requires LinkedSoFar(prev, g0, devices, order, i, 0) && LinkedSoFar(next, g0, devices, order, i + 1, 0)
    requires forall k :: 0 <= k < i ==> order[k] in prev
    requires prev.Keys <= next.Keys
    ensures forall k :: 0 <= k < i ==> order[k] in next && PartnersOf(next, order[k]) == PartnersOf(prev, order[k])
  {
    forall k | 0 <= k < i
      ensures PartnersOf(next, order[k]) == PartnersOf(prev, order[k])
    {
      var a := order[k];
      assert a in order[..i] && a in order[..i + 1];
      forall b
        ensures b in PartnersOf(prev, a) <==> b in PartnersOf(next, a)
      {
        assert PairLinkedSoFar(prev, g0, devices, order, i, 0, a, b);
        assert PairLinkedSoFar(next, g0, devices, order, i + 1, 0, a, b);
      }
    }
  }

  /**
   * When the outer loop has visited every device and every device has an
   * entry, the graph is `LinkedGraph` of the graph the loops started from.
   */
  lemma LinkedGraphReached(graph: map<string, set<string>>, g0: map<string, set<string>>,
                           devices: map<string, Device>, order: seq<string>)
    requires forall a :: a in devices ==> a in order && a in graph
    requires LinkedSoFar(graph, g0, devices, order, |order|, 0)
    ensures graph == LinkedGraph(g0, devices)
  {
    var r := LinkedGraph(g0, devices);
    assert order[..|order|] == order;
    assert graph.Keys == r.Keys;
    forall a | a in graph
      ensures graph[a] == r[a]
    {
      assert graph[a] == PartnersOf(graph, a);
      forall b
        ensures b in graph[a] <==> b in r[a]
      {
        assert PairLinkedSoFar(graph, g0, devices, order, |order|, 0, a, b);
        if Linked(devices, a, b) {
          assert a in order;
        }
      }
    }
  }

  /** The inner loop of `_analyze_communication_patterns`, for the device at position `i` of `order`. */
  method LinkRow(graph: map<string, set<string>>, devices: map<string, Device>, order: seq<string>, i: nat,
                 ghost g0: map<string, set<string>>)
    returns (next: map<string, set<string>>)
    requires i < |order|
    requires forall a :: a in devices <==> a in order
    requires LinkedSoFar(graph, g0, devices, order, i, 0)
    ensures LinkedSoFar(next, g0, devices, order, i + 1, 0)
    ensures graph.Keys <= next.Keys
  {
    var addr := order[i];
    next := graph;
    var j := 0;
    while j < |order|
      invariant 0 <= j <= |order|
      invariant LinkedSoFar(next, g0, devices, order, i, j)
      invariant graph.Keys <= next.Keys
    {
      var other := order[j];
      ghost var before := next;
      if addr != other && devices[addr].connectionHandle.Some?
         && devices[addr].connectionHandle == devices[other].connectionHandle {
        next := next[addr := PartnersOf(next, addr) + {other}];
        next := next[other := PartnersOf(next, other) + {addr}];
      }
      LinkStep(before, next, g0, devices, order, i, j);
      j := j + 1;
    }
    LinkRowDone(next, g0, devices, order, i);
  }

  /**
   * The body of the loop of `_check_for_vulnerabilities` for the device `d`
   * registered under `addr`: unencrypted traffic, an outdated TLS version,
   * then each sensitive service, each reported through the ledger's
   * duplicate check.
   */
  method RegisterDeviceFindings(ledger: seq<Vulnerability>, addr: string, d: Device) returns (r: seq<Vulnerability>)
    ensures r == RegisterAll(ledger, DeviceFindings(addr, d))
  {
    r := ledger;
    var traffic := if !d.encryptionEnabled && d.packetCount > 20 then [Vulnerability(UNENCRYPTED_TRAFFIC, addr, 4)] else [];
    if !d.encryptionEnabled && d.packetCount > 20 {
      r := Register(r, UNENCRYPTED_TRAFFIC, addr, 4);
      RegisterAllSnoc(ledger, [], traffic[0]);
    }
    assert r == RegisterAll(ledger, traffic);
    var tls := if d.sslTlsVersion.Some? && d.sslTlsVersion.value in OutdatedTlsVersions
               then [Vulnerability("Using outdated TLS/SSL version: " + d.sslTlsVersion.value, addr, 4)] else [];
    if d.sslTlsVersion.Some? && d.sslTlsVersion.value in OutdatedTlsVersions {
      r := Register(r, "Using outdated TLS/SSL version: " + d.sslTlsVersion.value, addr, 4);
      RegisterAllSnoc(ledger, traffic, tls[0]);
    }
    assert r == RegisterAll(ledger, traffic + tls);
    ghost var reported := r;
    var k := 0;
    while k < |d.services|
      invariant 0 <= k <= |d.services|
      invariant r == RegisterAll(reported, SensitiveServiceFindings(addr, d.services[..k], d.encryptionEnabled))
    {
      var service := d.services[k];
      ghost var done := SensitiveServiceFindings(addr, d.services[..k], d.encryptionEnabled);
      SensitiveServiceFindingsStep(addr, d.services, k, d.encryptionEnabled);
      if IsSensitiveService(service) && !d.encryptionEnabled {
        var f := SensitiveServiceFinding(addr, service);
        r := Register(r, f.description, addr, 4);
        RegisterAllSnoc(reported, done, f);
        assert r == RegisterAll(reported, done + [f]);
        assert done + [f] == SensitiveServiceFindings(addr, d.services[..k + 1], d.encryptionEnabled);
      } else {
        assert done == SensitiveServiceFindings(addr, d.services[..k + 1], d.encryptionEnabled);
      }
      assert r == RegisterAll(reported, SensitiveServiceFindings(addr, d.services[..k + 1], d.encryptionEnabled));
      k := k + 1;
    }
    assert d.services[..k] == d.services;
    RegisterAllAppend(ledger, traffic + tls, SensitiveServiceFindings(addr, d.services, d.encryptionEnabled));
  }

  /** The entry of `a` once the LLID-3 loop has visited the addresses `done`. */
  predicate MarkedAt(marked: map<string, Device>, registry: map<string, Device>, done: seq<string>, a: string) {
    a in marked && a in registry ==>
      marked[a] == if a in done && registry[a].connectionHandle.Some?
                   then registry[a].(potentialEncryption := true) else registry[a]
  }

  ghost predicate MarkedSoFar(marked: map<string, Device>, registry: map<string, Device>, done: seq<string>) {
    marked.Keys == registry.Keys && forall a :: MarkedAt(marked, registry, done, a)
  }

  /** One more visited address keeps the loop's view of the registry. */
  lemma MarkStep(marked: map<string, Device>, next: map<string, Device>, registry: map<string, Device>,
                 done: seq<string>, addr: string)
    requires MarkedSoFar(marked, registry, done) && addr in registry && addr !in done
    requires next == if marked[addr].connectionHandle.Some?
                     then marked[addr := marked[addr].(potentialEncryption := true)] else marked
    ensures MarkedSoFar(next, registry, done + [addr])
  {
    forall a ensures MarkedAt(next, registry, done + [addr], a) {
      assert MarkedAt(marked, registry, done, a);
    }
  }

  /** Once every registered address is visited, the registry is fully marked. */
  lemma MarkedAll(marked: map<string, Device>, registry: map<string, Device>, order: seq<string>)
    requires MarkedSoFar(marked, registry, order)
    requires forall a :: a in registry ==> a in order
    ensures marked == PotentialEncryptionMarked(registry)
  {
    forall a | a in marked ensures marked[a] == PotentialEncryptionMarked(registry)[a] {
      assert MarkedAt(marked, registry, order, a);
    }
  }

  /**
   * The LLID-3 loop of `_process_ble_packet` over the registry in
   * registration order: marks every device holding a connection handle and
   * returns the last address visited.
   */
  method MarkHandleHolders(order: seq<string>, registry: map<string, Device>)
    returns (marked: map<string, Device>, last: Option<string>)
    requires forall a :: a in registry <==> a in order
    requires forall x, y :: 0 <= x < y < |order| ==> order[x] != order[y]
    ensures marked == PotentialEncryptionMarked(registry)
    ensures last == if order == [] then None else Some(order[|order| - 1])
  {
    marked := registry;
    last := None;
    var i := 0;
    assert MarkedSoFar(marked, registry, order[..0]) by {
      forall a ensures MarkedAt(marked, registry, order[..0], a) {}
    }
    while i < |order|
      invariant 0 <= i <= |order|
      invariant MarkedSoFar(marked, registry, order[..i])
      invariant last == if i == 0 then None else Some(order[i - 1])
    {
      var addr := order[i];
      ghost var before := marked;
      assert addr !in order[..i];
      assert order[..i + 1] == order[..i] + [addr];
      if marked[addr].connectionHandle.Some? {
        marked := marked[addr := marked[addr].(potentialEncryption := true)];
      }
      MarkStep(before, marked, registry, order[..i], addr);
      last := Some(addr);
      i := i + 1;
    }
    assert order[..i] == order;
    MarkedAll(marked, registry, order);
  }

  /** The partner count of the device at position `i`, reported when it exceeds five. */
  method CountPartners(order: seq<string>, i: nat, linked: map<string, set<string>>,
                       ghost ledger: seq<Vulnerability>, r: seq<Vulnerability>)
    returns (next: seq<Vulnerability>)
    requires i < |order|
    requires order[i] in linked
    requires r == RegisterAll(ledger, CrowdFindings(order[..i], linked))
    ensures next == RegisterAll(ledger, CrowdFindings(order[..i + 1], linked))
  {
    var addr := order[i];
    ghost var done := CrowdFindings(order[..i], linked);
    CrowdFindingsStep(order, i, linked);
    var count := |linked[addr]|;
    assert count == |PartnersOf(linked, addr)|;
    next := r;
    if count > 5 {
      next := Register(r, CrowdFinding(addr, count).description, addr, 2);
      RegisterAllSnoc(ledger, done, CrowdFinding(addr, count));
      assert CrowdFindings(order[..i + 1], linked) == done + [CrowdFinding(addr, count)];
    } else {
      assert CrowdFindings(order[..i + 1], linked) == done + [];
      assert done + [] == done;
    }
  }

  /** The loop state of `_analyze_communication_patterns` after the first `i` devices. */
  ghost predicate CountedSoFar(linked: map<string, set<string>>, r: seq<Vulnerability>, graph: map<string, set<string>>,
                               registry: map<string, Device>, ledger: seq<Vulnerability>, order: seq<string>, i: nat)
    requires i <= |order|
  {
    && LinkedSoFar(linked, graph, registry, order, i, 0)
    && (forall k :: 0 <= k < i ==> order[k] in linked)
    && r == RegisterAll(ledger, CrowdFindings(order[..i], linked))
  }

  /**
   * The linking half of one pass of the loop of `_analyze_communication_patterns`:
   * the device at position `i` is linked with the later devices and gets an
   * entry; the rows of the earlier devices keep their partner sets.
   */
  method LinkEntry(order: seq<string>, i: nat, registry: map<string, Device>, graph: map<string, set<string>>,
                   linked: map<string, set<string>>)
    returns (linked': map<string, set<string>>)
    requires i < |order| && forall a :: a in registry <==> a in order
    requires LinkedSoFar(linked, graph, registry, order, i, 0)
    requires forall k :: 0 <= k < i ==> order[k] in linked
    ensures LinkedSoFar(linked', graph, registry, order, i + 1, 0)
    ensures forall k :: 0 <= k < i + 1 ==> order[k] in linked'
    ensures forall k :: 0 <= k < i ==> PartnersOf(linked', order[k]) == PartnersOf(linked, order[k])
  {
    var addr := order[i];
    linked' := LinkRow(linked, registry, order, i, graph);
    LinkedSoFarEntry(linked', graph, registry, order, i + 1, addr);
    linked' := EnsureEntry(linked', addr);
    RowsKept(linked, linked', graph, registry, order, i);
    assert forall k :: 0 <= k < i + 1 ==> order[k] in linked' by {
      forall k | 0 <= k < i + 1
        ensures order[k] in linked'
      {
        if k == i {
          assert order[k] == addr;
        }
      }
    }
  }

  /** One pass of the loop of `_analyze_communication_patterns`, for the device at position `i`. */
  method LinkAndCountStep(order: seq<string>, i: nat, registry: map<string, Device>, graph: map<string, set<string>>,
                          ghost ledger: seq<Vulnerability>, linked: map<string, set<string>>, r: seq<Vulnerability>)
    returns (linked': map<string, set<string>>, r': seq<Vulnerability>)
    requires i < |order| && forall a :: a in registry <==> a in order
    requires CountedSoFar(linked, r, graph, registry, ledger, order, i)
    ensures CountedSoFar(linked', r', graph, registry, ledger, order, i + 1)
  {
    linked' := LinkEntry(order, i, registry, graph, linked);
    CrowdFindingsAgree(order[..i], linked, linked');
    r' := CountPartners(order, i, linked', ledger, r);
  }

  /**
   * The loop of `_analyze_communication_patterns` over the registry in
   * registration order: links the devices at each position, then reports a
   * device with more than five partners.
   */
  method LinkAndCount(order: seq<string>, registry: map<string, Device>,
                      graph: map<string, set<string>>, ledger: seq<Vulnerability>)
    returns (linked: map<string, set<string>>, r: seq<Vulnerability>)
    requires forall a :: a in registry <==> a in order
    ensures linked == LinkedGraph(graph, registry)
    ensures r == RegisterAll(ledger, CrowdFindings(order, LinkedGraph(graph, registry)))
  {
    linked, r := graph, ledger;
    var i := 0;
    while i < |order|
      invariant 0 <= i <= |order|
      invariant CountedSoFar(linked, r, graph, registry, ledger, order, i)
    {
      linked, r := LinkAndCountStep(order, i, registry, graph, ledger, linked, r);
      i := i + 1;
    }
    assert order[..i] == order;
    assert forall a :: a in registry ==> a in linked by {
      forall a | a in registry ensures a in linked {
        var k :| 0 <= k < |order| && order[k] == a;
      }
    }
    LinkedGraphReached(linked, graph, registry, order);
  }

  /** Registering the crowd findings keeps the ledger free of duplicates and its severities in 1..5. */
  lemma CrowdFindingsKeepLedger(ledger: seq<Vulnerability>, order: seq<string>, linked: map<string, set<string>>)
    requires Deduplicated(ledger) && SeveritiesIn(ledger, 1, 5)
    ensures Deduplicated(RegisterAll(ledger, CrowdFindings(order, linked)))
    ensures SeveritiesIn(RegisterAll(ledger, CrowdFindings(order, linked)), 1, 5)
  {
    CrowdFindingsReported(order, linked);
    RegisterAllSeverities(ledger, CrowdFindings(order, linked), 1, 5);
    RegisterAllDeduplicated(ledger, CrowdFindings(order, linked));
  }

  /** Registering the check's findings keeps the ledger free of duplicates and its severities in 1..5. */
  lemma CheckFindingsKeepLedger(ledger: seq<Vulnerability>, order: seq<string>, registry: map<string, Device>)
    requires forall k :: 0 <= k < |order| ==> order[k] in registry
    requires Deduplicated(ledger) && SeveritiesIn(ledger, 1, 5)
    ensures Deduplicated(RegisterAll(ledger, CheckFindings(order, registry)))
    ensures SeveritiesIn(RegisterAll(ledger, CheckFindings(order, registry)), 1, 5)
  {
    CheckFindingsReported(order, registry);
    RegisterAllSeverities(ledger, CheckFindings(order, registry), 1, 5);
    RegisterAllDeduplicated(ledger, CheckFindings(order, registry));
  }

  /** The loop of `_check_for_vulnerabilities` over the registry in registration order. */
  method RegisterCheckFindings(order: seq<string>, registry: map<string, Device>, ledger: seq<Vulnerability>)
    returns (r: seq<Vulnerability>)
    requires forall k :: 0 <= k < |order| ==> order[k] in registry
    ensures r == RegisterAll(ledger, CheckFindings(order, registry))
  {
    r := ledger;
    var i := 0;
    while i < |order|
      invariant 0 <= i <= |order|
      invariant r == RegisterAll(ledger, CheckFindings(order[..i], registry))
    {
      var addr := order[i];
      r := RegisterDeviceFindings(r, addr, registry[addr]);
      assert order[..i + 1][..i] == order[..i] && order[..i + 1][i] == addr;
      RegisterAllAppend(ledger, CheckFindings(order[..i], registry), DeviceFindings(addr, registry[addr]));
      i := i + 1;
    }
    assert order[..i] == order;
  }

  class SecurityAnalyzer {
    var devices: map<string, Device>
    /** The keys of `devices` in insertion order, the order Python iterates them in. */
    var deviceOrder: seq<string>
    var securityEvents: seq<SecurityEvent>
    var vulnerabilities: seq<Vulnerability>
    var riskScore: real
    var communicationMap: map<string, set<string>>
    var connectionPhases: map<string, ConnState>
    var pairingPhases: map<string, PairState>
    var smpProtocolDetected: set<string>

    /**
     * The session invariant: the registry is keyed by non-empty lower-case
     * addresses listed once each in `deviceOrder`; the ledger holds each
     * (description, device) pair once, with severities 1..5; the score is a
     * percentage; every phase record has its full packet-number table; and
     * the partner graph is symmetric and has no self-loops.
     */
    ghost predicate Valid()
      reads this
    {
      RegistryValid() && LedgerValid() && ConnValid() && PairValid() && GraphValid()
    }

    /** The parts of the invariant the SMP handlers rely on and keep. */
    ghost predicate SmpValid()
      reads this`devices, this`deviceOrder, this`vulnerabilities, this`riskScore, this`pairingPhases
    {
      RegistryValid() && LedgerValid() && PairValid()
    }

    /** Registry keys: non-empty, lower-case, each listed once in `deviceOrder`. */
    ghost predicate RegistryValid()
      reads this`devices, this`deviceOrder
    {
      (forall i, j :: 0 <= i < j < |deviceOrder| ==> deviceOrder[i] != deviceOrder[j])
      && (forall a :: a in devices <==> a in deviceOrder)
      && (forall a :: a in devices ==> a != "" && IsLowerCase(a))
    }

    ghost predicate LedgerValid()
      reads this`vulnerabilities, this`riskScore
    {
      Deduplicated(vulnerabilities) && SeveritiesIn(vulnerabilities, 1, 5) && 0.0 <= riskScore <= 100.0
    }

    ghost predicate ConnValid()
      reads this`connectionPhases
    {
      forall a :: a in connectionPhases ==> connectionPhases[a].packetNumbers.Keys == AllConnPhases
    }

    ghost predicate PairValid()
      reads this`pairingPhases
    {
      forall a :: a in pairingPhases ==> pairingPhases[a].packetNumbers.Keys == AllPairPhases
    }

    /** The partner graph is symmetric and has no self-loops. */
    ghost predicate GraphValid()
      reads this`communicationMap
    {
      SymmetricGraph(communicationMap)
    }

    /** A fresh session: everything empty and a zero score. */
    constructor ()
      ensures Valid()
      ensures devices == map[] && deviceOrder == [] && securityEvents == [] && vulnerabilities == []
      ensures riskScore == 0.0 && communicationMap == map[] && connectionPhases == map[]
      ensures pairingPhases == map[] && smpProtocolDetected == {}
    {
      devices := map[];
      deviceOrder := [];
      securityEvents := [];
      vulnerabilities := [];
      riskScore := 0.0;
      communicationMap := map[];
      connectionPhases := map[];
      pairingPhases := map[];
      smpProtocolDetected := {};
    }

    /**
     * `_register_device`: an empty address is ignored; otherwise the entry
     * under the lower-cased address is created if new (appended to the
     * iteration order) and its packet count raised by one.
     */
    method RegisterDevice(addr: string, now: string)
      requires Valid()
      modifies this
      ensures Valid()
      ensures addr == "" ==> devices == old(devices) && deviceOrder == old(deviceOrder)
      ensures addr != "" ==> devices == old(devices)[ToLower(addr) := Touched(old(devices), ToLower(addr), now)]
      ensures addr != "" ==>
                deviceOrder == old(deviceOrder) + (if ToLower(addr) in old(devices) then [] else [ToLower(addr)])
      ensures securityEvents == old(securityEvents) && vulnerabilities == old(vulnerabilities)
      ensures riskScore == old(riskScore) && communicationMap == old(communicationMap)
      ensures connectionPhases == old(connectionPhases) && pairingPhases == old(pairingPhases)
      ensures smpProtocolDetected == old(smpProtocolDetected)
    {
      if addr == "" {
        return;
      }
      var key := ToLower(addr);
      if key !in devices {
        deviceOrder := deviceOrder + [key];
      }
      devices := devices[key := Touched(devices, key, now)];
    }

    /**
     * `_register_vulnerability`: scans the ledger for the same description
     * and device and appends the finding only when there is none.
     */
    method RegisterVulnerability(description: string, device: string, severity: int)
      requires LedgerValid() && 1 <= severity <= 5
      modifies this
      ensures LedgerValid()
      ensures vulnerabilities == Registered(old(vulnerabilities), description, device, severity)
      ensures devices == old(devices) && deviceOrder == old(deviceOrder) && securityEvents == old(securityEvents)
      ensures riskScore == old(riskScore) && communicationMap == old(communicationMap)
      ensures connectionPhases == old(connectionPhases) && pairingPhases == old(pairingPhases)
      ensures smpProtocolDetected == old(smpProtocolDetected)
    {
      RegisteredKeepsLedger(vulnerabilities, description, device, severity);
      vulnerabilities := Register(vulnerabilities, description, device, severity);
    }

    /**
     * `_track_connection_phase`: on the given address, else the packet's own,
     * marks `phase`, appends the packet number unless it is `'unknown'`, and
     * logs a `connection_<phase>` event. A connection-complete event that
     * carries a handle stores it on the device, raising `KeyError` when the
     * address is not a registry key.
     */
    method TrackConnectionPhase(packet: Packet, phase: ConnPhase, deviceAddr: string) returns (raised: bool)
      requires Valid()
      modifies this
      ensures Valid()
      ensures var addr := TrackedAddress(deviceAddr, packet.mac);
              addr == "" ==> !raised && devices == old(devices) && connectionPhases == old(connectionPhases)
                             && securityEvents == old(securityEvents)
      ensures var addr := TrackedAddress(deviceAddr, packet.mac);
              addr != "" ==> connectionPhases == old(connectionPhases)[addr :=
                ConnTracked(old(connectionPhases), addr, phase, PacketNumber(packet), packet.sniffTimestamp)]
      ensures var addr := TrackedAddress(deviceAddr, packet.mac);
              addr != "" ==>
                securityEvents == old(securityEvents) + [ConnectionEvent(phase, addr, packet.sniffTimestamp, PacketNumber(packet))]
      ensures var addr := TrackedAddress(deviceAddr, packet.mac);
              addr != "" && phase == ConnectionComplete && EventConnectionHandle(packet).Some? ==>
                (raised <==> addr !in old(devices))
                && devices == WithHandle(old(devices), addr, EventConnectionHandle(packet))
      ensures phase != ConnectionComplete || EventConnectionHandle(packet).None? ==> !raised && devices == old(devices)
      ensures deviceOrder == old(deviceOrder) && vulnerabilities == old(vulnerabilities)
      ensures riskScore == old(riskScore) && communicationMap == old(communicationMap)
      ensures pairingPhases == old(pairingPhases) && smpProtocolDetected == old(smpProtocolDetected)
    {
      var addr := TrackedAddress(deviceAddr, packet.mac);
      raised := false;
      if addr != "" {
        RecordConnectionPhase(addr, phase, PacketNumber(packet), packet.sniffTimestamp);
        var handle := EventConnectionHandle(packet);
        if phase == ConnectionComplete && handle.Some? {
          raised := StoreConnectionHandle(addr, handle);
        }
      }
    }

    /** The phase bookkeeping of `_track_connection_phase` for a known address. */
    method RecordConnectionPhase(addr: string, phase: ConnPhase, num: string, ts: Option<string>)
      requires Valid()
      modifies this
      ensures Valid()
      ensures connectionPhases == old(connectionPhases)[addr := ConnTracked(old(connectionPhases), addr, phase, num, ts)]
      ensures securityEvents == old(securityEvents) + [ConnectionEvent(phase, addr, ts, num)]
      ensures devices == old(devices) && deviceOrder == old(deviceOrder) && vulnerabilities == old(vulnerabilities)
      ensures riskScore == old(riskScore) && communicationMap == old(communicationMap)
      ensures pairingPhases == old(pairingPhases) && smpProtocolDetected == old(smpProtocolDetected)
    {
      connectionPhases := connectionPhases[addr := ConnTracked(connectionPhases, addr, phase, num, ts)];
      securityEvents := securityEvents + [ConnectionEvent(phase, addr, ts, num)];
    }

    /**
     * `self.devices[addr]['connection_handle'] = handle`: a `KeyError`
     * (`raised`, nothing changed) when `addr` is not a registry key.
     */
    method StoreConnectionHandle(addr: string, handle: Option<string>) returns (raised: bool)
      requires Valid()
      modifies this
      ensures Valid()
      ensures raised <==> addr !in old(devices)
      ensures devices == WithHandle(old(devices), addr, handle)
      ensures deviceOrder == old(deviceOrder) && securityEvents == old(securityEvents)
      ensures vulnerabilities == old(vulnerabilities) && riskScore == old(riskScore)
      ensures communicationMap == old(communicationMap) && connectionPhases == old(connectionPhases)
      ensures pairingPhases == old(pairingPhases) && smpProtocolDetected == old(smpProtocolDetected)
    {
      raised := addr !in devices;
      devices := WithHandle(devices, addr, handle);
    }

    /**
     * `_track_pairing_phase`: records the address as speaking SMP, marks
     * `phase`, appends the packet number unless it is `'unknown'`, and logs
     * a `pairing_<phase>` event.
     */
    method TrackPairingPhase(phase: PairPhase, deviceAddr: string, mac: string, timestamp: Option<string>, num: string)
      requires PairValid()
      modifies this
      ensures PairValid()
      ensures var addr := TrackedAddress(deviceAddr, mac);
              addr == "" ==> pairingPhases == old(pairingPhases) && securityEvents == old(securityEvents)
                             && smpProtocolDetected == old(smpProtocolDetected)
      ensures PairingGrows(old(pairingPhases), pairingPhases)
      ensures var addr := TrackedAddress(deviceAddr, mac);
              addr != "" ==>
                && pairingPhases == old(pairingPhases)[addr := PairTracked(old(pairingPhases), addr, phase, num, timestamp)]
                && securityEvents == old(securityEvents) + [PairingEvent(phase, addr, timestamp, num)]
                && smpProtocolDetected == old(smpProtocolDetected) + {addr}
      ensures devices == old(devices) && deviceOrder == old(deviceOrder) && vulnerabilities == old(vulnerabilities)
      ensures riskScore == old(riskScore) && communicationMap == old(communicationMap)
      ensures connectionPhases == old(connectionPhases)
    {
      var addr := TrackedAddress(deviceAddr, mac);
      if addr == "" {
        return;
      }
      smpProtocolDetected := smpProtocolDetected + {addr};
      var record := PairTracked(pairingPhases, addr, phase, num, timestamp);
      assert record.packetNumbers.Keys == AllPairPhases;
      pairingPhases := pairingPhases[addr := record];
      PairingGrowsByUpdate(old(pairingPhases), addr, record);
      securityEvents := securityEvents + [PairingEvent(phase, addr, timestamp, num)];
    }

    // ------------------------------------------------------------ SMP

    /**
     * What every SMP step keeps: the registry keys, the connection records,
     * the partner graph and the score are untouched; no address leaves the
     * SMP set; pairing flags are only ever set; the timeline only grows.
     */
    twostate predicate SmpStep()
      reads this
    {
      && devices.Keys == old(devices).Keys && deviceOrder == old(deviceOrder)
      && connectionPhases == old(connectionPhases) && communicationMap == old(communicationMap)
      && riskScore == old(riskScore)
      && old(smpProtocolDetected) <= smpProtocolDetected
      && PairingGrows(old(pairingPhases), pairingPhases)
      && old(securityEvents) <= securityEvents
    }

    /**
     * `_extract_smp_info`: notes the layer's `bd_addr` as speaking SMP (and
     * its registry entry, when there is one, as SMP-capable), dispatches on
     * the command code, and finally, for a layer carrying an `ltk` field,
     * marks the device and its pairing record as holding a long-term key.
     * Without an address nothing happens.
     */
    method ExtractSmpInfo(layer: Fields) returns (raised: bool)
      requires Valid()
      modifies this
      ensures Valid() && SmpStep()
      ensures FieldOr(layer, "bd_addr") == "" ==>
                !raised && devices == old(devices) && pairingPhases == old(pairingPhases)
                && securityEvents == old(securityEvents) && smpProtocolDetected == old(smpProtocolDetected)
                && vulnerabilities == old(vulnerabilities)
      ensures var addr := FieldOr(layer, "bd_addr");
              addr != "" ==> addr in smpProtocolDetected
      ensures var addr := FieldOr(layer, "bd_addr");
              addr != "" ==> vulnerabilities == SmpCommandLedger(layer, addr, addr in old(devices), old(vulnerabilities))
      ensures var addr := FieldOr(layer, "bd_addr");
              addr != "" ==> securityEvents == old(securityEvents)
                               + SmpCommandEvents(SmpCommandOfLayer(layer), addr, addr in old(pairingPhases), addr in old(devices))
      ensures var addr := FieldOr(layer, "bd_addr");
              addr != "" && addr in old(devices) ==> addr in devices && devices[addr].smpDetected
      ensures devices.Keys == old(devices).Keys
      ensures forall a :: a in old(devices) && a != FieldOr(layer, "bd_addr") ==> devices[a] == old(devices)[a]
      ensures var addr := FieldOr(layer, "bd_addr");
              addr != "" && "ltk" in layer && !raised ==>
                addr in devices && devices[addr].hasLtk && addr in pairingPhases && pairingPhases[addr].ltkExchanged
      ensures var addr := FieldOr(layer, "bd_addr");
              var dispatched := SmpCommandPairing(SmpCommandOfLayer(layer), layer, addr, addr in old(devices), old(pairingPhases));
              addr != "" ==> pairingPhases == if "ltk" in layer && !raised && addr in dispatched
                                              then dispatched[addr := dispatched[addr].(ltkExchanged := true)]
                                              else dispatched
      ensures var addr := FieldOr(layer, "bd_addr");
              var dispatchRaised := SmpCommandRaises(SmpCommandOfLayer(layer), layer, addr in old(devices), addr in old(pairingPhases));
              var dispatched := SmpCommandPairing(SmpCommandOfLayer(layer), layer, addr, addr in old(devices), old(pairingPhases));
              addr != "" ==> (raised <==> dispatchRaised || ("ltk" in layer && (addr !in old(devices) || addr !in dispatched)))
      ensures var addr := FieldOr(layer, "bd_addr");
              var dispatchRaised := SmpCommandRaises(SmpCommandOfLayer(layer), layer, addr in old(devices), addr in old(pairingPhases));
              var updated := SmpCommandDevices(SmpCommandOfLayer(layer), layer, addr, addr in old(pairingPhases),
                                               SmpNoted(old(devices), addr));
              addr != "" ==> devices == if !dispatchRaised && "ltk" in layer && addr in updated
                                        then updated[addr := updated[addr].(hasLtk := true)]
                                        else updated
    {
      var addr := FieldOr(layer, "bd_addr");
      if addr == "" {
        return false;
      }
      raised := HandleSmpLayer(layer, addr);
    }

    /** `_extract_smp_info` once the layer has yielded an address. */
    method HandleSmpLayer(layer: Fields, addr: string) returns (raised: bool)
      requires SmpValid() && addr != ""
      modifies this
      ensures SmpValid() && SmpStep()
      ensures addr in smpProtocolDetected
      ensures vulnerabilities == SmpCommandLedger(layer, addr, addr in old(devices), old(vulnerabilities))
      ensures securityEvents == old(securityEvents)
                                + SmpCommandEvents(SmpCommandOfLayer(layer), addr, addr in old(pairingPhases), addr in old(devices))
      ensures addr in old(devices) ==> addr in devices && devices[addr].smpDetected
      ensures forall a :: a in old(devices) && a != addr ==> devices[a] == old(devices)[a]
      ensures "ltk" in layer && !raised ==>
                addr in devices && devices[addr].hasLtk && addr in pairingPhases && pairingPhases[addr].ltkExchanged
      ensures var dispatched := SmpCommandPairing(SmpCommandOfLayer(layer), layer, addr, addr in old(devices), old(pairingPhases));
              pairingPhases == if "ltk" in layer && !raised && addr in dispatched
                               then dispatched[addr := dispatched[addr].(ltkExchanged := true)]
                               else dispatched
      ensures var dispatchRaised := SmpCommandRaises(SmpCommandOfLayer(layer), layer, addr in old(devices), addr in old(pairingPhases));
              var dispatched := SmpCommandPairing(SmpCommandOfLayer(layer), layer, addr, addr in old(devices), old(pairingPhases));
              raised <==> dispatchRaised || ("ltk" in layer && (addr !in old(devices) || addr !in dispatched))
      ensures var dispatchRaised := SmpCommandRaises(SmpCommandOfLayer(layer), layer, addr in old(devices), addr in old(pairingPhases));
              var updated := SmpCommandDevices(SmpCommandOfLayer(layer), layer, addr, addr in old(pairingPhases),
                                               SmpNoted(old(devices), addr));
              devices == if !dispatchRaised && "ltk" in layer && addr in updated
                         then updated[addr := updated[addr].(hasLtk := true)]
                         else updated
    {
      raised := NoteAndDispatch(layer, addr);
      SmpCommandKeepsRegistry(SmpCommandOfLayer(layer), layer, addr, addr in old(pairingPhases), SmpNoted(old(devices), addr));
      if !raised {
        ghost var dispatched := pairingPhases;
        raised := NoteLongTermKey(layer, addr);
        PairingGrowsTransitive(old(pairingPhases), dispatched, pairingPhases);
      }
    }

    /** The last step of `_extract_smp_info`, reached when the dispatch did not raise: a layer's `ltk` field. */
    method NoteLongTermKey(layer: Fields, addr: string) returns (raised: bool)
      requires SmpValid() && addr != ""
      modifies this
      ensures SmpValid() && SmpStep()
      ensures "ltk" in layer && !raised ==>
                addr in devices && devices[addr].hasLtk && addr in pairingPhases && pairingPhases[addr].ltkExchanged
      ensures pairingPhases == if "ltk" in layer && !raised && addr in old(pairingPhases)
                               then old(pairingPhases)[addr := old(pairingPhases)[addr].(ltkExchanged := true)]
                               else old(pairingPhases)
      ensures addr in old(devices) ==> devices[addr].smpDetected == old(devices)[addr].smpDetected
      ensures forall a :: a in old(devices) && a != addr ==> devices[a] == old(devices)[a]
      ensures raised <==> "ltk" in layer && (addr !in old(devices) || addr !in old(pairingPhases))
      ensures devices == if "ltk" in layer && addr in old(devices)
                         then old(devices)[addr := old(devices)[addr].(hasLtk := true)]
                         else old(devices)
      ensures vulnerabilities == old(vulnerabilities) && securityEvents == old(securityEvents)
      ensures smpProtocolDetected == old(smpProtocolDetected)
    {
      raised := false;
      if "ltk" in layer {
        raised := OnLongTermKey(addr);
      }
    }

    /** The first two steps of `_extract_smp_info`: the address is noted as speaking SMP, then the command dispatched. */
    method NoteAndDispatch(layer: Fields, addr: string) returns (raised: bool)
      requires SmpValid() && addr != ""
      modifies this
      ensures SmpValid() && SmpStep()
      ensures addr in smpProtocolDetected
      ensures vulnerabilities == SmpCommandLedger(layer, addr, addr in old(devices), old(vulnerabilities))
      ensures securityEvents == old(securityEvents)
                                + SmpCommandEvents(SmpCommandOfLayer(layer), addr, addr in old(pairingPhases), addr in old(devices))
      ensures devices == SmpCommandDevices(SmpCommandOfLayer(layer), layer, addr, addr in old(pairingPhases),
                                           SmpNoted(old(devices), addr))
      ensures pairingPhases == SmpCommandPairing(SmpCommandOfLayer(layer), layer, addr, addr in old(devices), old(pairingPhases))
      ensures raised == SmpCommandRaises(SmpCommandOfLayer(layer), layer, addr in old(devices), addr in old(pairingPhases))
    {
      NoteSmpSpeaker(addr);
      raised := DispatchSmpCommand(layer, addr);
    }

    /** Notes `addr` as speaking SMP, and its registry entry, when there is one, as SMP-capable. */
    method NoteSmpSpeaker(addr: string)
      requires SmpValid() && addr != ""
      modifies this
      ensures SmpValid() && SmpStep()
      ensures smpProtocolDetected == old(smpProtocolDetected) + {addr}
      ensures devices == SmpNoted(old(devices), addr)
      ensures pairingPhases == old(pairingPhases) && securityEvents == old(securityEvents)
      ensures vulnerabilities == old(vulnerabilities)
    {
      smpProtocolDetected := smpProtocolDetected + {addr};
      if addr in devices {
        SetDevice(addr, devices[addr].(smpDetected := true));
      }
    }

    /** The command dispatch of `_extract_smp_info`, for a layer with an address. */
    method DispatchSmpCommand(layer: Fields, addr: string) returns (raised: bool)
      requires SmpValid() && addr != ""
      modifies this
      ensures SmpValid() && SmpStep()
      ensures vulnerabilities == SmpCommandLedger(layer, addr, addr in old(devices), old(vulnerabilities))
      ensures securityEvents == old(securityEvents)
                                + SmpCommandEvents(SmpCommandOfLayer(layer), addr, addr in old(pairingPhases), addr in old(devices))
      ensures devices == SmpCommandDevices(SmpCommandOfLayer(layer), layer, addr, addr in old(pairingPhases), old(devices))
      ensures pairingPhases == SmpCommandPairing(SmpCommandOfLayer(layer), layer, addr, addr in old(devices), old(pairingPhases))
      ensures raised == SmpCommandRaises(SmpCommandOfLayer(layer), layer, addr in old(devices), addr in old(pairingPhases))
      ensures SmpCommandOfLayer(layer) in {SecurityRequestCmd, PairingRequestCmd, PairingResponseCmd} ==>
                addr in pairingPhases && PairPhaseOf(SmpCommandOfLayer(layer)) in pairingPhases[addr].reached
      ensures SmpCommandOfLayer(layer) in {PairingConfirmCmd, IdentityInformationCmd, SigningInformationCmd} ==>
                pairingPhases == if addr in old(pairingPhases)
                                 then old(pairingPhases)[addr := KeyFlagSet(old(pairingPhases)[addr], SmpCommandOfLayer(layer))]
                                 else old(pairingPhases)
      ensures SmpCommandOfLayer(layer) == EncryptionInformationCmd && addr in old(pairingPhases) ==>
                pairingPhases[addr].ltkExchanged && PairPhase.KeyDistribution in pairingPhases[addr].reached
      ensures SmpCommandOfLayer(layer) == OtherCmd ==>
                !raised && devices == old(devices) && pairingPhases == old(pairingPhases)
                && securityEvents == old(securityEvents) && smpProtocolDetected == old(smpProtocolDetected)
    {
      var cmd := SmpCommandOfLayer(layer);
      if cmd in {SecurityRequestCmd, PairingRequestCmd, PairingResponseCmd} {
        raised := DispatchPairingStep(layer, addr);
      } else if cmd != OtherCmd {
        raised := DispatchKeyDistribution(layer, addr);
      } else {
        raised := false;
      }
    }

    /** The pairing-step commands: Security Request, Pairing Request and Pairing Response. */
    method DispatchPairingStep(layer: Fields, addr: string) returns (raised: bool)
      requires SmpValid() && addr != ""
      requires SmpCommandOfLayer(layer) in {SecurityRequestCmd, PairingRequestCmd, PairingResponseCmd}
      modifies this
      ensures SmpValid() && SmpStep()
      ensures vulnerabilities == SmpCommandLedger(layer, addr, addr in old(devices), old(vulnerabilities))
      ensures securityEvents == old(securityEvents)
                                + SmpCommandEvents(SmpCommandOfLayer(layer), addr, addr in old(pairingPhases), addr in old(devices))
      ensures devices == SmpCommandDevices(SmpCommandOfLayer(layer), layer, addr, addr in old(pairingPhases), old(devices))
      ensures pairingPhases == SmpCommandPairing(SmpCommandOfLayer(layer), layer, addr, addr in old(devices), old(pairingPhases))
      ensures raised == SmpCommandRaises(SmpCommandOfLayer(layer), layer, addr in old(devices), addr in old(pairingPhases))
      ensures addr in pairingPhases && PairPhaseOf(SmpCommandOfLayer(layer)) in pairingPhases[addr].reached
    {
      match SmpCommandOfLayer(layer)
      case SecurityRequestCmd => raised := OnSecurityRequest(layer, addr);
      case PairingRequestCmd => raised := OnPairingRequest(layer, addr);
      case PairingResponseCmd => OnPairingResponse(layer, addr); raised := false;
    }

    /**
     * The key-distribution commands: Pairing Confirm, Encryption Information,
     * Identity Information, Identity Address Information and Signing Information.
     */
    method DispatchKeyDistribution(layer: Fields, addr: string) returns (raised: bool)
      requires SmpValid() && addr != ""
      requires SmpCommandOfLayer(layer) in {PairingConfirmCmd, EncryptionInformationCmd, IdentityInformationCmd,
                                            IdentityAddressInformationCmd, SigningInformationCmd}
      modifies this
      ensures SmpValid() && SmpStep()
      ensures vulnerabilities == SmpCommandLedger(layer, addr, addr in old(devices), old(vulnerabilities))
      ensures securityEvents == old(securityEvents)
                                + SmpCommandEvents(SmpCommandOfLayer(layer), addr, addr in old(pairingPhases), addr in old(devices))
      ensures devices == SmpCommandDevices(SmpCommandOfLayer(layer), layer, addr, addr in old(pairingPhases), old(devices))
      ensures pairingPhases == SmpCommandPairing(SmpCommandOfLayer(layer), layer, addr, addr in old(devices), old(pairingPhases))
      ensures raised == SmpCommandRaises(SmpCommandOfLayer(layer), layer, addr in old(devices), addr in old(pairingPhases))
      ensures SmpCommandOfLayer(layer) in {PairingConfirmCmd, IdentityInformationCmd, SigningInformationCmd} ==>
                pairingPhases == if addr in old(pairingPhases)
                                 then old(pairingPhases)[addr := KeyFlagSet(old(pairingPhases)[addr], SmpCommandOfLayer(layer))]
                                 else old(pairingPhases)
      ensures SmpCommandOfLayer(layer) == EncryptionInformationCmd && addr in old(pairingPhases) ==>
                pairingPhases[addr].ltkExchanged && PairPhase.KeyDistribution in pairingPhases[addr].reached
    {
      var cmd := SmpCommandOfLayer(layer);
      if cmd == EncryptionInformationCmd {
        raised := OnEncryptionInformation(addr);
      } else if cmd == IdentityAddressInformationCmd {
        raised := OnIdentityAddressInformation(layer, addr);
      } else {
        raised := OnKeyFlag(addr, cmd);
      }
    }

    /** Replaces the pairing record of `addr` by one with the same packet table and no flag cleared. */
    method SetPairRecord(addr: string, r: PairState)
      requires PairValid() && addr in pairingPhases
      requires PairFlagsGrow(pairingPhases[addr], r) && r.packetNumbers == pairingPhases[addr].packetNumbers
      modifies this
      ensures PairValid()
      ensures pairingPhases == old(pairingPhases)[addr := r]
      ensures PairingGrows(old(pairingPhases), pairingPhases)
      ensures devices == old(devices) && deviceOrder == old(deviceOrder) && securityEvents == old(securityEvents)
      ensures vulnerabilities == old(vulnerabilities) && riskScore == old(riskScore)
      ensures communicationMap == old(communicationMap) && connectionPhases == old(connectionPhases)
      ensures smpProtocolDetected == old(smpProtocolDetected)
    {
      pairingPhases := pairingPhases[addr := r];
      PairingGrowsByUpdate(old(pairingPhases), addr, r);
    }

    /** Replaces the registry entry of an already registered `addr`. */
    method SetDevice(addr: string, d: Device)
      requires RegistryValid() && addr in devices
      modifies this
      ensures RegistryValid()
      ensures devices == old(devices)[addr := d] && devices.Keys == old(devices).Keys
      ensures deviceOrder == old(deviceOrder) && securityEvents == old(securityEvents)
      ensures vulnerabilities == old(vulnerabilities) && riskScore == old(riskScore)
      ensures communicationMap == old(communicationMap) && connectionPhases == old(connectionPhases)
      ensures pairingPhases == old(pairingPhases) && smpProtocolDetected == old(smpProtocolDetected)
    {
      devices := devices[addr := d];
    }

    /** Security Request (0x0B): tracked, and its `authentication` field read as hex. */
    method OnSecurityRequest(layer: Fields, addr: string) returns (raised: bool)
      requires SmpValid() && addr != ""
      modifies this
      ensures SmpValid() && SmpStep()
      ensures addr in pairingPhases && SecurityRequest in pairingPhases[addr].reached
      ensures raised <==> "authentication" in layer && ParseHex(layer["authentication"]).None?
      ensures "authentication" in layer && !raised ==>
                pairingPhases[addr].requestedSecurityLevel == ParseHex(layer["authentication"])
      ensures var tracked := PairTracked(old(pairingPhases), addr, SecurityRequest, "unknown", None);
              pairingPhases == old(pairingPhases)[addr :=
                if "authentication" in layer && !raised
                then tracked.(requestedSecurityLevel := ParseHex(layer["authentication"]))
                else tracked]
      ensures securityEvents == old(securityEvents) + [PairingEvent(SecurityRequest, addr, None, "unknown")]
      ensures devices == old(devices) && vulnerabilities == old(vulnerabilities)
      ensures smpProtocolDetected == old(smpProtocolDetected) + {addr}
    {
      TrackPairingPhase(SecurityRequest, addr, "", None, "unknown");
      raised := false;
      if "authentication" in layer {
        var level := ParseHex(layer["authentication"]);
        if level.None? {
          return true;
        }
        ghost var tracked := pairingPhases;
        SetPairRecord(addr, pairingPhases[addr].(requestedSecurityLevel := level));
        PairingGrowsTransitive(old(pairingPhases), tracked, pairingPhases);
        UpdateTwice(old(pairingPhases), addr, tracked[addr], pairingPhases[addr]);
      }
    }

    /**
     * Pairing Request (0x01): tracked; the initiator's I/O capability is
     * stored on the device (a `KeyError` for an unregistered address), the
     * OOB flag and the AuthReq field on the pairing record; AuthReq is read
     * as hex (a `ValueError` when it is not) and a clear MITM bit is a
     * finding of severity 4.
     */
    method OnPairingRequest(layer: Fields, addr: string) returns (raised: bool)
      requires SmpValid() && addr != ""
      modifies this
      ensures SmpValid() && SmpStep()
      ensures smpProtocolDetected == old(smpProtocolDetected) + {addr}
      ensures securityEvents == old(securityEvents) + [PairingEvent(PairingRequest, addr, None, "unknown")]
      ensures raised <==> ("io_capability" in layer && addr !in old(devices))
                          || ("auth_req" in layer && ParseHex(layer["auth_req"]).None?)
      ensures "io_capability" in layer && addr in old(devices) ==>
                devices == old(devices)[addr := old(devices)[addr].(pairingMethod := Some(layer["io_capability"]))]
      ensures "io_capability" !in layer || addr !in old(devices) ==> devices == old(devices)
      ensures var tracked := PairTracked(old(pairingPhases), addr, PairingRequest, "unknown", None);
              pairingPhases == old(pairingPhases)[addr :=
                if "io_capability" in layer && addr !in old(devices) then tracked
                else PairingRequestRecord(tracked, layer)]
      ensures vulnerabilities == if !raised && "auth_req" in layer && !Bit(ParseHex(layer["auth_req"]).value, 2)
                                 then Registered(old(vulnerabilities), NO_MITM, addr, 4)
                                 else old(vulnerabilities)
    {
      TrackPairingPhase(PairingRequest, addr, "", None, "unknown");
      if "io_capability" in layer {
        if addr !in devices {
          return true;
        }
        SetDevice(addr, devices[addr].(pairingMethod := Some(layer["io_capability"])));
      }
      ghost var tracked := pairingPhases;
      SetPairRecord(addr, PairingRequestRecord(pairingPhases[addr], layer));
      PairingGrowsTransitive(old(pairingPhases), tracked, pairingPhases);
      UpdateTwice(old(pairingPhases), addr, tracked[addr], pairingPhases[addr]);
      if "auth_req" in layer {
        var authReq := ParseHex(layer["auth_req"]);
        if authReq.None? {
          return true;
        }
        if !Bit(authReq.value, 2) {
          RegisterVulnerability(NO_MITM, addr, 4);
        }
      }
      return false;
    }

    /**
     * Pairing Response (0x02): tracked; the responder's I/O capability is
     * stored, and the NoInputNoOutput code (Just Works pairing) is a finding
     * of severity 5.
     */
    method OnPairingResponse(layer: Fields, addr: string)
      requires SmpValid() && addr != ""
      modifies this
      ensures SmpValid() && SmpStep()
      ensures addr in pairingPhases && PairingResponse in pairingPhases[addr].reached
      ensures smpProtocolDetected == old(smpProtocolDetected) + {addr}
      ensures "io_capability" in layer ==> pairingPhases[addr].responderIoCapability == Some(layer["io_capability"])
      ensures var tracked := PairTracked(old(pairingPhases), addr, PairingResponse, "unknown", None);
              pairingPhases == old(pairingPhases)[addr :=
                if "io_capability" in layer then tracked.(responderIoCapability := Some(layer["io_capability"]))
                else tracked]
      ensures securityEvents == old(securityEvents) + [PairingEvent(PairingResponse, addr, None, "unknown")]
      ensures devices == old(devices)
      ensures vulnerabilities == if IsJustWorksCode(FieldOr(layer, "io_capability"))
                                 then Registered(old(vulnerabilities), JUST_WORKS, addr, 5)
                                 else old(vulnerabilities)
    {
      TrackPairingPhase(PairingResponse, addr, "", None, "unknown");
      if "io_capability" in layer {
        var ioCap := layer["io_capability"];
        ghost var tracked := pairingPhases;
        SetPairRecord(addr, pairingPhases[addr].(responderIoCapability := Some(ioCap)));
        PairingGrowsTransitive(old(pairingPhases), tracked, pairingPhases);
        UpdateTwice(old(pairingPhases), addr, tracked[addr], pairingPhases[addr]);
        if IsJustWorksCode(ioCap) {
          RegisterVulnerability(JUST_WORKS, addr, 5);
        }
      }
    }

    /**
     * Pairing Confirm (0x03), Identity Information (0x07) and Signing
     * Information (0x09): the matching flag of an existing pairing record is
     * set and a key event logged; a `KeyError` when the address has no
     * pairing record yet.
     */
    method OnKeyFlag(addr: string, cmd: SmpCommand) returns (raised: bool)
      requires SmpValid() && addr != ""
      requires cmd in {PairingConfirmCmd, IdentityInformationCmd, SigningInformationCmd}
      modifies this
      ensures SmpValid() && SmpStep()
      ensures raised <==> addr !in old(pairingPhases)
      ensures raised ==> pairingPhases == old(pairingPhases) && securityEvents == old(securityEvents)
      ensures !raised ==> pairingPhases == old(pairingPhases)[addr := KeyFlagSet(old(pairingPhases)[addr], cmd)]
      ensures !raised ==> securityEvents == old(securityEvents) + [KeyEvent(KeyStepOf(cmd), addr)]
      ensures devices == old(devices) && vulnerabilities == old(vulnerabilities)
      ensures smpProtocolDetected == old(smpProtocolDetected)
    {
      if addr !in pairingPhases {
        return true;
      }
      SetPairRecord(addr, KeyFlagSet(pairingPhases[addr], cmd));
      securityEvents := securityEvents + [KeyEvent(KeyStepOf(cmd), addr)];
      return false;
    }

    /**
     * Encryption Information (0x06), the LTK distribution: the pairing
     * record's LTK flag and key-distribution phase are set and the phase
     * tracked, then the device is marked as holding an LTK and an
     * `ltk_exchange` event logged. A missing pairing record or device is a
     * `KeyError`.
     */
    method OnEncryptionInformation(addr: string) returns (raised: bool)
      requires SmpValid() && addr != ""
      modifies this
      ensures SmpValid() && SmpStep()
      ensures raised <==> addr !in old(pairingPhases) || addr !in old(devices)
      ensures addr !in old(pairingPhases) ==> pairingPhases == old(pairingPhases) && securityEvents == old(securityEvents)
      ensures addr in old(pairingPhases) ==>
                && addr in pairingPhases && pairingPhases[addr].ltkExchanged
                && PairPhase.KeyDistribution in pairingPhases[addr].reached
      ensures addr in old(pairingPhases) ==>
                var record := old(pairingPhases)[addr];
                var marked := record.(ltkExchanged := true, reached := record.reached + {PairPhase.KeyDistribution});
                pairingPhases == old(pairingPhases)[addr :=
                  PairTracked(old(pairingPhases)[addr := marked], addr, PairPhase.KeyDistribution, "unknown", None)]
      ensures !raised ==> devices == old(devices)[addr := old(devices)[addr].(hasLtk := true)]
      ensures raised ==> devices == old(devices)
      ensures addr in old(pairingPhases) ==>
                var tracked := PairingEvent(PairPhase.KeyDistribution, addr, None, "unknown");
                securityEvents == old(securityEvents) + [tracked] + (if raised then [] else [KeyEvent(LtkExchange, addr)])
      ensures vulnerabilities == old(vulnerabilities)
    {
      if addr !in pairingPhases {
        return true;
      }
      MarkKeyDistribution(addr);
      if addr !in devices {
        return true;
      }
      SetDevice(addr, devices[addr].(hasLtk := true));
      securityEvents := securityEvents + [KeyEvent(LtkExchange, addr)];
      return false;
    }

    /**
     * The pairing-record half of Encryption Information: the LTK and
     * key-distribution flags are set, then the key-distribution phase is
     * tracked.
     */
    method MarkKeyDistribution(addr: string)
      requires PairValid() && addr in pairingPhases && addr != ""
      modifies this
      ensures PairValid()
      ensures PairingGrows(old(pairingPhases), pairingPhases)
      ensures var record := old(pairingPhases)[addr];
              var marked := record.(ltkExchanged := true, reached := record.reached + {PairPhase.KeyDistribution});
              pairingPhases == old(pairingPhases)[addr :=
                PairTracked(old(pairingPhases)[addr := marked], addr, PairPhase.KeyDistribution, "unknown", None)]
      ensures securityEvents == old(securityEvents) + [PairingEvent(PairPhase.KeyDistribution, addr, None, "unknown")]
      ensures smpProtocolDetected == old(smpProtocolDetected) + {addr}
      ensures devices == old(devices) && deviceOrder == old(deviceOrder) && vulnerabilities == old(vulnerabilities)
      ensures riskScore == old(riskScore) && communicationMap == old(communicationMap)
      ensures connectionPhases == old(connectionPhases)
    {
      var record := pairingPhases[addr];
      SetPairRecord(addr, record.(ltkExchanged := true, reached := record.reached + {PairPhase.KeyDistribution}));
      ghost var marked := pairingPhases;
      TrackPairingPhase(PairPhase.KeyDistribution, addr, "", None, "unknown");
      PairingGrowsTransitive(old(pairingPhases), marked, pairingPhases);
      UpdateTwice(old(pairingPhases), addr, marked[addr], pairingPhases[addr]);
    }

    /**
     * Identity Address Information (0x08): the identity address type is
     * stored on the device (a `KeyError` for an unregistered address); a
     * public identity address (`'0'`) is a privacy finding of severity 2.
     */
    method OnIdentityAddressInformation(layer: Fields, addr: string) returns (raised: bool)
      requires SmpValid() && addr != ""
      modifies this
      ensures SmpValid() && SmpStep()
      ensures raised <==> "identity_address_type" in layer && addr !in old(devices)
      ensures !raised && "identity_address_type" in layer ==>
                devices == old(devices)[addr := old(devices)[addr].(identityAddressType := Some(layer["identity_address_type"]))]
      ensures raised || "identity_address_type" !in layer ==> devices == old(devices)
      ensures vulnerabilities == if addr in old(devices) && FieldOr(layer, "identity_address_type") == "0"
                                 then Registered(old(vulnerabilities), PUBLIC_IDENTITY, addr, 2)
                                 else old(vulnerabilities)
      ensures pairingPhases == old(pairingPhases) && securityEvents == old(securityEvents)
      ensures smpProtocolDetected == old(smpProtocolDetected)
    {
      if "identity_address_type" in layer {
        var idType := layer["identity_address_type"];
        if addr !in devices {
          return true;
        }
        SetDevice(addr, devices[addr].(identityAddressType := Some(idType)));
        if idType == "0" {
          RegisterVulnerability(PUBLIC_IDENTITY, addr, 2);
        }
      }
      return false;
    }

    /**
     * A layer carrying an `ltk` field: the device is marked as holding an LTK
     * and so is its pairing record; a `KeyError` for a missing entry.
     */
    method OnLongTermKey(addr: string) returns (raised: bool)
      requires SmpValid() && addr != ""
      modifies this
      ensures SmpValid() && SmpStep()
      ensures raised <==> addr !in old(devices) || addr !in old(pairingPhases)
      ensures addr in old(devices) ==> devices == old(devices)[addr := old(devices)[addr].(hasLtk := true)]
      ensures addr !in old(devices) ==> devices == old(devices)
      ensures !raised ==> pairingPhases == old(pairingPhases)[addr := old(pairingPhases)[addr].(ltkExchanged := true)]
      ensures raised ==> pairingPhases == old(pairingPhases)
      ensures vulnerabilities == old(vulnerabilities) && securityEvents == old(securityEvents)
      ensures smpProtocolDetected == old(smpProtocolDetected)
    {
      if addr !in devices {
        return true;
      }
      SetDevice(addr, devices[addr].(hasLtk := true));
      if addr !in pairingPhases {
        return true;
      }
      SetPairRecord(addr, pairingPhases[addr].(ltkExchanged := true));
      return false;
    }

    // ------------------------------------------------------------ HCI events

    /**
     * `_extract_hci_evt_info`: for a layer with a `bd_addr`, an Encryption
     * Change with status 0 overwrites the device's encryption flag; an
     * `enc_key_size` is read as a decimal (a `ValueError` when it is not) and
     * stored, and a key shorter than 16 bytes is a severity-4 finding. The
     * address is used as given, so one the registry does not hold is a
     * `KeyError`.
     */
    method ExtractHciEvtInfo(layer: Fields) returns (raised: bool)
      requires RegistryValid() && LedgerValid()
      modifies this
      ensures RegistryValid() && LedgerValid()
      ensures var addr := FieldOr(layer, "bd_addr");
              raised <==> "bd_addr" in layer
                          && ((addr !in old(devices) && (EncryptionChange(layer).Some? || "enc_key_size" in layer))
                              || ("enc_key_size" in layer && ParseDec(layer["enc_key_size"]).None?))
      ensures var addr := FieldOr(layer, "bd_addr");
              devices == if "bd_addr" in layer && addr in old(devices)
                         then old(devices)[addr := HciDevice(old(devices)[addr], layer)]
                         else old(devices)
      ensures var addr := FieldOr(layer, "bd_addr");
              var keySize := ParseDec(FieldOr(layer, "enc_key_size"));
              vulnerabilities == if "bd_addr" in layer && addr in old(devices) && keySize.Some? && keySize.value < 16
                                 then Registered(old(vulnerabilities), WeakKeyFinding(keySize.value), addr, 4)
                                 else old(vulnerabilities)
      ensures deviceOrder == old(deviceOrder) && securityEvents == old(securityEvents) && riskScore == old(riskScore)
      ensures communicationMap == old(communicationMap) && connectionPhases == old(connectionPhases)
      ensures pairingPhases == old(pairingPhases) && smpProtocolDetected == old(smpProtocolDetected)
    {
      if "bd_addr" !in layer {
        return false;
      }
      var addr := layer["bd_addr"];
      var change := EncryptionChange(layer);
      if change.Some? {
        if addr !in devices {
          return true;
        }
        SetDevice(addr, devices[addr].(encryptionEnabled := change.value));
      }
      ghost var changed := devices;
      if "enc_key_size" in layer {
        var keySize := ParseDec(layer["enc_key_size"]);
        if keySize.None? {
          return true;
        }
        if addr !in devices {
          return true;
        }
        assert devices[addr].(encryptionKeySize := keySize) == HciDevice(old(devices)[addr], layer);
        SetDevice(addr, devices[addr].(encryptionKeySize := keySize));
        UpdateTwice(old(devices), addr, changed[addr], devices[addr]);
        if keySize.value < 16 {
          RegisterVulnerability(WeakKeyFinding(keySize.value), addr, 4);
        }
      } else if addr in old(devices) {
        assert devices[addr] == HciDevice(old(devices)[addr], layer);
      }
      return false;
    }

    // ------------------------------------------------------------ BLE packets

    /**
     * The advertiser part of `_process_ble_packet`: the advertising address
     * is registered and, when the packet gives its type, the type is stored
     * under the address as given; a public (non-random) address is a
     * severity-2 privacy finding. Registration lower-cases the address, so an
     * empty or upper-case one is not found again: a `KeyError`.
     */
    method NoteAdvertiser(btle: Fields, now: string) returns (raised: bool)
      requires Valid()
      modifies this
      ensures Valid()
      ensures "advertising_address" !in btle ==>
                !raised && devices == old(devices) && deviceOrder == old(deviceOrder)
      ensures var addr := FieldOr(btle, "advertising_address");
              raised <==> "advertising_address" in btle && "advertising_address_type" in btle
                          && (addr == "" || !IsLowerCase(addr))
      ensures var addr := FieldOr(btle, "advertising_address");
              var registered := if addr == "" then old(devices)
                                else old(devices)[ToLower(addr) := Touched(old(devices), ToLower(addr), now)];
              "advertising_address" in btle ==>
                devices == if "advertising_address_type" in btle && !raised
                           then registered[addr := AddressTyped(registered[addr], btle["advertising_address_type"])]
                           else registered
      ensures var addr := FieldOr(btle, "advertising_address");
              vulnerabilities == if "advertising_address" in btle && "advertising_address_type" in btle && !raised
                                    && btle["advertising_address_type"] != "1"
                                 then Registered(old(vulnerabilities), PUBLIC_ADDRESS, addr, 2)
                                 else old(vulnerabilities)
      ensures securityEvents == old(securityEvents) && riskScore == old(riskScore)
      ensures communicationMap == old(communicationMap) && connectionPhases == old(connectionPhases)
      ensures pairingPhases == old(pairingPhases) && smpProtocolDetected == old(smpProtocolDetected)
    {
      if "advertising_address" !in btle {
        return false;
      }
      var addr := btle["advertising_address"];
      FoundAfterRegistering(devices, addr, now);
      RegisterDevice(addr, now);
      if "advertising_address_type" in btle {
        var addrType := btle["advertising_address_type"];
        if addr !in devices {
          return true;
        }
        SetDevice(addr, AddressTyped(devices[addr], addrType));
        if addrType != "1" {
          RegisterVulnerability(PUBLIC_ADDRESS, addr, 2);
        }
      }
      return false;
    }

    /**
     * `_process_ble_packet`, for a packet with a BLE layer: the advertiser is
     * noted; an advertising PDU type of the analyzer's table marks the
     * matching connection phase of the advertiser; an LE Connection Complete
     * event marks that phase for its own address and stores its handle; an
     * LLID-3 data header marks every device holding a handle as potentially
     * encrypted, and the loop over the registry leaves its last address in
     * place of the advertiser's; then the advertising data and the ATT layer
     * are analysed for that address. A `KeyError` ends the packet.
     */
    method ProcessBlePacket(packet: Packet, now: string) returns (raised: bool)
      requires Valid()
      modifies this
      ensures Valid()
      ensures "btle" !in packet.layers ==>
                !raised && devices == old(devices) && vulnerabilities == old(vulnerabilities)
                && securityEvents == old(securityEvents) && connectionPhases == old(connectionPhases)
      ensures old(vulnerabilities) <= vulnerabilities && old(securityEvents) <= securityEvents
      ensures var btle := Layer(packet, "btle");
              var addr := FieldOr(btle, "advertising_address");
              var phase := ConnPhaseOfPdu(FieldOr(btle, "advertising_header_pdu_type"));
              "btle" in packet.layers && addr != "" && phase.Some?
              && !("advertising_address_type" in btle && !IsLowerCase(addr)) ==>
                |securityEvents| > |old(securityEvents)|
                && securityEvents[|old(securityEvents)|]
                   == ConnectionEvent(phase.value, addr, packet.sniffTimestamp, PacketNumber(packet))
    {
      if "btle" !in packet.layers {
        return false;
      }
      var btle := packet.layers["btle"];
      var addr := FieldOr(btle, "advertising_address");
      raised := NoteAdvertiser(btle, now);
      if raised {
        return;
      }
      raised := TrackPacketPhases(packet, btle, addr);
      if raised {
        return;
      }
      AnalyzePayload(packet, btle, addr);
      return false;
    }

    /**
     * The connection-phase part of `_process_ble_packet`: an advertising PDU
     * type of the analyzer's table marks the matching phase of the
     * advertiser, and an LE Connection Complete event marks that phase for
     * its own address (storing its handle). Each marked phase appends one
     * event; a `KeyError` ends the packet.
     */
    method TrackPacketPhases(packet: Packet, btle: Fields, addr: string) returns (raised: bool)
      requires Valid()
      modifies this
      ensures Valid()
      ensures old(securityEvents) <= securityEvents
      ensures var phase := ConnPhaseOfPdu(FieldOr(btle, "advertising_header_pdu_type"));
              addr != "" && phase.Some? ==>
                |securityEvents| > |old(securityEvents)|
                && securityEvents[|old(securityEvents)|]
                   == ConnectionEvent(phase.value, addr, packet.sniffTimestamp, PacketNumber(packet))
      ensures deviceOrder == old(deviceOrder) && vulnerabilities == old(vulnerabilities)
      ensures riskScore == old(riskScore) && communicationMap == old(communicationMap)
      ensures pairingPhases == old(pairingPhases) && smpProtocolDetected == old(smpProtocolDetected)
    {
      raised := false;
      if "advertising_header_pdu_type" in btle {
        var phase := ConnPhaseOfPdu(btle["advertising_header_pdu_type"]);
        if phase.Some? && addr != "" {
          raised := TrackConnectionPhase(packet, phase.value, addr);
          if raised {
            return;
          }
        }
      }
      ghost var marked := securityEvents;
      if "bthci_evt" in packet.layers {
        var evt := packet.layers["bthci_evt"];
        if FieldOr(evt, "code") == "3e" && FieldOr(evt, "le_meta_subevent") == "1" && "bd_addr" in evt {
          raised := TrackConnectionPhase(packet, ConnectionComplete, evt["bd_addr"]);
          assert marked <= securityEvents;
        }
      }
    }

    /**
     * The payload part of `_process_ble_packet`: an LLID-3 data header marks
     * every device holding a handle as potentially encrypted, and the loop
     * over the registry leaves its last address in place of the
     * advertiser's; then the advertising data and the ATT layer are analysed
     * for that address. Findings are only ever appended.
     */
    method AnalyzePayload(packet: Packet, btle: Fields, mac: string)
      requires Valid()
      modifies this
      ensures Valid()
      ensures old(vulnerabilities) <= vulnerabilities
      ensures deviceOrder == old(deviceOrder) && securityEvents == old(securityEvents)
      ensures communicationMap == old(communicationMap) && connectionPhases == old(connectionPhases)
      ensures pairingPhases == old(pairingPhases) && smpProtocolDetected == old(smpProtocolDetected)
    {
      var addr := mac;
      if FieldOr(btle, "data_header_llid") == "3" {
        var last := MarkPotentialEncryption();
        if last.Some? {
          addr := last.value;
        }
      }
      ghost var before := vulnerabilities;
      if "advertising_data" in btle {
        AnalyzeAdvertisingData(packet, addr);
      }
      ghost var advertised := vulnerabilities;
      assert before <= advertised;
      if "btatt" in packet.layers {
        AnalyzeGattOperations(packet, addr);
      }
      assert advertised <= vulnerabilities;
    }

    /**
     * The LLID-3 pass of `_process_ble_packet`: every registered device that
     * holds a connection handle is marked as potentially encrypted. Returns
     * the last address visited, which the loop variable still holds
     * afterwards (`None` for an empty registry, when it keeps its old value).
     */
    method MarkPotentialEncryption() returns (last: Option<string>)
      requires Valid()
      modifies this
      ensures Valid()
      ensures devices == PotentialEncryptionMarked(old(devices))
      ensures last == if deviceOrder == [] then None else Some(deviceOrder[|deviceOrder| - 1])
      ensures deviceOrder == old(deviceOrder) && securityEvents == old(securityEvents)
      ensures vulnerabilities == old(vulnerabilities) && riskScore == old(riskScore)
      ensures communicationMap == old(communicationMap) && connectionPhases == old(connectionPhases)
      ensures pairingPhases == old(pairingPhases) && smpProtocolDetected == old(smpProtocolDetected)
    {
      devices, last := MarkHandleHolders(deviceOrder, devices);
    }

    /**
     * `_analyze_advertising_data`: for a registered `mac`, stores the
     * advertised name, then adds each advertised service UUID to the
     * device's advertised services and checks it against the service rules.
     * An empty `mac` writes nothing; an unregistered one stops the method at
     * its first write (a `KeyError` it swallows), before any change.
     */
    method AnalyzeAdvertisingData(packet: Packet, mac: string)
      requires RegistryValid() && LedgerValid()
      modifies this
      ensures RegistryValid() && LedgerValid()
      ensures var btle := Layer(packet, "btle");
              "advertising_data" in btle && mac in old(devices) ==>
                var named := if "name" in btle then old(devices)[mac].(deviceName := Some(btle["name"]))
                             else old(devices)[mac];
                && devices == old(devices)[mac := Advertised(named, packet.advertisedUuids)]
                && vulnerabilities == RegisterAll(old(vulnerabilities),
                     AdvertisedServiceFindings(packet.advertisedUuids, mac, old(devices)[mac].encryptionEnabled))
      ensures "advertising_data" !in Layer(packet, "btle") || mac !in old(devices) ==>
                devices == old(devices) && vulnerabilities == old(vulnerabilities)
      ensures deviceOrder == old(deviceOrder) && securityEvents == old(securityEvents) && riskScore == old(riskScore)
      ensures communicationMap == old(communicationMap) && connectionPhases == old(connectionPhases)
      ensures pairingPhases == old(pairingPhases) && smpProtocolDetected == old(smpProtocolDetected)
    {
      var btle := Layer(packet, "btle");
      if "advertising_data" !in btle {
        return;
      }
      // With an empty `mac` every write is skipped; with an unregistered one
      // the first write raises the swallowed `KeyError`: nothing changes.
      if mac !in devices {
        return;
      }
      if "name" in btle {
        SetDevice(mac, devices[mac].(deviceName := Some(btle["name"])));
      }
      ghost var named := devices;
      assert LedgerValid();
      AdvertiseServices(packet.advertisedUuids, mac);
      UpdateTwice(old(devices), mac, named[mac], devices[mac]);
    }

    /**
     * The UUID loop of `_analyze_advertising_data` for a registered device:
     * each advertised UUID in turn joins the device's advertised services
     * and is checked against the service rules.
     */
    method AdvertiseServices(uuids: seq<string>, mac: string)
      requires RegistryValid() && LedgerValid() && mac in devices
      modifies this
      ensures RegistryValid() && LedgerValid()
      ensures devices == old(devices)[mac := Advertised(old(devices)[mac], uuids)]
      ensures vulnerabilities == RegisterAll(old(vulnerabilities),
                AdvertisedServiceFindings(uuids, mac, old(devices)[mac].encryptionEnabled))
      ensures deviceOrder == old(deviceOrder) && securityEvents == old(securityEvents) && riskScore == old(riskScore)
      ensures communicationMap == old(communicationMap) && connectionPhases == old(connectionPhases)
      ensures pairingPhases == old(pairingPhases) && smpProtocolDetected == old(smpProtocolDetected)
    {
      ghost var d := devices[mac];
      ghost var enc := d.encryptionEnabled;
      var i := 0;
      while i < |uuids|
        invariant 0 <= i <= |uuids|
        invariant RegistryValid() && LedgerValid()
        invariant devices == old(devices)[mac := Advertised(d, uuids[..i])]
        invariant vulnerabilities == RegisterAll(old(vulnerabilities), AdvertisedServiceFindings(uuids[..i], mac, enc))
        invariant deviceOrder == old(deviceOrder) && securityEvents == old(securityEvents) && riskScore == old(riskScore)
        invariant communicationMap == old(communicationMap) && connectionPhases == old(connectionPhases)
        invariant pairingPhases == old(pairingPhases) && smpProtocolDetected == old(smpProtocolDetected)
      {
        var uuid := uuids[i];
        ghost var before := devices;
        ghost var ledger := vulnerabilities;
        assert before[mac].encryptionEnabled == enc;
        AdvertiseService(uuid, mac);
        AdvertisedLedgerStep(old(vulnerabilities), uuids, i, mac, enc, ledger, vulnerabilities);
        AdvertisedStep(d, uuids, i);
        UpdateTwice(old(devices), mac, before[mac], devices[mac]);
        i := i + 1;
        assert vulnerabilities == RegisterAll(old(vulnerabilities), AdvertisedServiceFindings(uuids[..i], mac, enc));
      }
      assert uuids[..i] == uuids;
    }

    /**
     * One pass of the UUID loop of `_analyze_advertising_data` for a
     * registered device: the UUID joins its advertised services, then
     * `_check_vulnerable_service` runs on it.
     */
    method AdvertiseService(uuid: string, mac: string)
      requires RegistryValid() && LedgerValid() && mac in devices
      modifies this
      ensures RegistryValid() && LedgerValid()
      ensures devices == old(devices)[mac := Advertised(old(devices)[mac], [uuid])]
      ensures vulnerabilities == RegisterAll(old(vulnerabilities), ServiceFindings(uuid, mac, old(devices)[mac].encryptionEnabled))
      ensures deviceOrder == old(deviceOrder) && securityEvents == old(securityEvents) && riskScore == old(riskScore)
      ensures communicationMap == old(communicationMap) && connectionPhases == old(connectionPhases)
      ensures pairingPhases == old(pairingPhases) && smpProtocolDetected == old(smpProtocolDetected)
    {
      ghost var d := devices[mac];
      SetDevice(mac, devices[mac].(advertisedServices := devices[mac].advertisedServices + {uuid}));
      ghost var added := devices;
      var raised := CheckVulnerableService(uuid, mac);
      assert [uuid][..0] == [];
      UpdateTwice(old(devices), mac, added[mac], devices[mac]);
    }

    /**
     * `_check_vulnerable_service`: a serial-port UUID is a severity-2
     * finding; a firmware-update UUID is a severity-5 finding for a device
     * not known to be encrypted, and otherwise marks the device as offering
     * a DFU service (a `KeyError` when there is no device to mark).
     */
    method CheckVulnerableService(uuid: string, mac: string) returns (raised: bool)
      requires RegistryValid() && LedgerValid()
      modifies this
      ensures RegistryValid() && LedgerValid()
      ensures raised <==> IsDfuService(uuid) && mac == ""
      ensures vulnerabilities == RegisterAll(old(vulnerabilities), ServiceFindings(uuid, mac, KnownEncrypted(old(devices), mac)))
      ensures devices == if IsDfuService(uuid) && KnownEncrypted(old(devices), mac)
                         then old(devices)[mac := old(devices)[mac].(hasDfuService := true)]
                         else old(devices)
      ensures deviceOrder == old(deviceOrder) && securityEvents == old(securityEvents) && riskScore == old(riskScore)
      ensures communicationMap == old(communicationMap) && connectionPhases == old(connectionPhases)
      ensures pairingPhases == old(pairingPhases) && smpProtocolDetected == old(smpProtocolDetected)
    {
      var findings := ServiceFindings(uuid, mac, KnownEncrypted(devices, mac));
      raised := false;
      var serial := if IsSerialService(uuid) then [Vulnerability(SERIAL_FINDING, mac, 2)] else [];
      if IsSerialService(uuid) {
        RegisterVulnerability(SERIAL_FINDING, mac, 2);
      }
      assert vulnerabilities == RegisterAll(old(vulnerabilities), serial) by {
        assert serial != [] ==> serial[1..] == [];
      }
      if IsDfuService(uuid) {
        if mac != "" && !KnownEncrypted(devices, mac) {
          RegisterVulnerability(DFU_FINDING, mac, 5);
          var dfu := Vulnerability(DFU_FINDING, mac, 5);
          assert findings == serial + [dfu];
          RegisterAllSnoc(old(vulnerabilities), serial, dfu);
        } else {
          assert findings == serial;
          if mac !in devices {
            return true;
          }
          SetDevice(mac, devices[mac].(hasDfuService := true));
        }
      } else {
        assert findings == serial;
      }
    }

    // ------------------------------------------------------------ GATT operations

    /**
     * `_analyze_gatt_operations`: for an ATT layer with an opcode, counts the
     * operation on the registered sending device, then registers the
     * write or read finding `GattFinding` describes. An unregistered sender
     * or a handle that is not hex ends the analysis (the exception is
     * swallowed).
     */
    method AnalyzeGattOperations(packet: Packet, mac: string)
      requires RegistryValid() && LedgerValid()
      modifies this
      ensures RegistryValid() && LedgerValid()
      ensures var att := Layer(packet, "btatt");
              devices == if "opcode" in att && mac in old(devices)
                         then old(devices)[mac := GattCounted(old(devices)[mac], att["opcode"])]
                         else old(devices)
      ensures vulnerabilities == match GattFinding(Layer(packet, "btatt"), mac, old(devices))
                                 case None => old(vulnerabilities)
                                 case Some(f) => Registered(old(vulnerabilities), f.description, f.device, f.severity)
      ensures deviceOrder == old(deviceOrder) && securityEvents == old(securityEvents) && riskScore == old(riskScore)
      ensures communicationMap == old(communicationMap) && connectionPhases == old(connectionPhases)
      ensures pairingPhases == old(pairingPhases) && smpProtocolDetected == old(smpProtocolDetected)
    {
      var att := Layer(packet, "btatt");
      if "opcode" !in att {
        return;
      }
      if mac != "" {
        if mac !in devices {
          return;
        }
        GattFindingIgnoresCounts(att, mac, devices, mac);
        SetDevice(mac, GattCounted(devices[mac], att["opcode"]));
      }
      var finding := GattFinding(att, mac, devices);
      if finding.Some? {
        RegisterVulnerability(finding.value.description, finding.value.device, finding.value.severity);
      }
    }

    // ------------------------------------------------------------ end-of-capture passes

    /**
     * `_analyze_communication_patterns`: every pair of different registered
     * devices sharing a connection handle is added to the partner graph in
     * both directions, each device gets an entry, and a device with more
     * than five partners is a severity-2 finding, in registration order.
     */
    method AnalyzeCommunicationPatterns()
      requires Valid()
      modifies this
      ensures Valid()
      ensures communicationMap == LinkedGraph(old(communicationMap), old(devices))
      ensures vulnerabilities == RegisterAll(old(vulnerabilities),
                CrowdFindings(old(deviceOrder), LinkedGraph(old(communicationMap), old(devices))))
      ensures devices == old(devices) && deviceOrder == old(deviceOrder) && securityEvents == old(securityEvents)
      ensures riskScore == old(riskScore) && connectionPhases == old(connectionPhases)
      ensures pairingPhases == old(pairingPhases) && smpProtocolDetected == old(smpProtocolDetected)
    {
      var order, registry := deviceOrder, devices;
      assert forall a :: a in registry <==> a in order;
      CrowdFindingsKeepLedger(vulnerabilities, order, LinkedGraph(communicationMap, registry));
      LinkedGraphSymmetric(communicationMap, registry);
      var linked, ledger := LinkAndCount(order, registry, communicationMap, vulnerabilities);
      communicationMap, vulnerabilities := linked, ledger;
    }

    /**
     * `_check_for_vulnerabilities`: the findings `DeviceFindings` lists for
     * each registered device, registered device by device in registration
     * order.
     */
    method CheckForVulnerabilities()
      requires RegistryValid() && LedgerValid()
      modifies this
      ensures RegistryValid() && LedgerValid()
      ensures vulnerabilities == RegisterAll(old(vulnerabilities), CheckFindings(deviceOrder, devices))
      ensures devices == old(devices) && deviceOrder == old(deviceOrder) && securityEvents == old(securityEvents)
      ensures riskScore == old(riskScore) && communicationMap == old(communicationMap)
      ensures connectionPhases == old(connectionPhases) && pairingPhases == old(pairingPhases)
      ensures smpProtocolDetected == old(smpProtocolDetected)
    {
      CheckFindingsKeepLedger(vulnerabilities, deviceOrder, devices);
      vulnerabilities := RegisterCheckFindings(deviceOrder, devices, vulnerabilities);
    }

    /**
     * `_calculate_risk_score`: the score of the current ledger and registry
     * size, which lies in 0..100.
     */
    method CalculateRiskScore()
      requires LedgerValid()
      modifies this
      ensures LedgerValid()
      ensures riskScore == RiskScore(vulnerabilities, |devices|)
      ensures devices == old(devices) && deviceOrder == old(deviceOrder) && securityEvents == old(securityEvents)
      ensures vulnerabilities == old(vulnerabilities) && communicationMap == old(communicationMap)
      ensures connectionPhases == old(connectionPhases) && pairingPhases == old(pairingPhases)
      ensures smpProtocolDetected == old(smpProtocolDetected)
    {
      RiskScoreNonNegative(vulnerabilities, |devices|);
      riskScore := RiskScore(vulnerabilities, |devices|);
    }

    /**
     * `generate_authentication_summary`: the overall counts and one summary
     * per registered device, built from the current session state.
     */
    function GenerateAuthenticationSummary(): (s: AuthenticationSummary)
      reads this
      requires RegistryValid()
      ensures s.devices.Keys == devices.Keys
      ensures s.overall.totalDevices == |devices| && s.overall.devicesWithSmpDetected == |smpProtocolDetected|
      ensures s.overall.devicesWithEncryption == |set a | a in devices && devices[a].encryptionEnabled|
      ensures s.overall.devicesWithoutEncryption == |set a | a in devices && !devices[a].encryptionEnabled|
      ensures s.overall.devicesWithoutPairing == |set a | a in devices && !devices[a].smpDetected|
    {
      OverallCounts(deviceOrder, devices, smpProtocolDetected);
      Summarize(deviceOrder, devices, smpProtocolDetected, connectionPhases, pairingPhases, vulnerabilities)
    }
  }
}
