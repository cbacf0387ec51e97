/**
 * The bit-flag and opcode decoders of protocol_decoder_functions.py.
 *
 * Each decoder reads a hexadecimal string with Python's `int(s, 16)`
 * (`ParseHex`), extracts single bits with `(v >> k) & 1` (`Bit`) and
 * returns a fixed record of labelled fields. An empty input gives the
 * all-`'Unknown'` record, an unparsable one the all-`'Error parsing'`
 * record; in both the raw value is kept as the decoders keep it.
 */
module ProtocolDecoders {
  import opened Wrappers
  import opened Text

  const UNKNOWN := "Unknown"
  const ERROR := "Error parsing"

  // ---------------------------------------------------------------- bits

  /** Python's `(v >> k) & 1 == 1`, equivalently `v & (1 << k) != 0`. */
  predicate Bit(v: nat, k: nat) {
    if k == 0 then v % 2 == 1 else Bit(v / 2, k - 1)
  }

  /** Python's `v ^ (1 << k)`: `v` with bit `k` flipped. */
  function Toggle(v: nat, k: nat): nat {
    if k == 0 then (if v % 2 == 1 then v - 1 else v + 1)
    else 2 * Toggle(v / 2, k - 1) + v % 2
  }

  /** Flipping bit `k` flips that bit and keeps every other one. */
  lemma {:induction false} ToggleBit(v: nat, k: nat, j: nat)
    ensures Bit(Toggle(v, k), j) == (if j == k then !Bit(v, j) else Bit(v, j))
  {
    var t := Toggle(v, k);
    if k == 0 {
      if j > 0 {
        assert t / 2 == v / 2;
      }
    } else if j == 0 {
      assert t % 2 == v % 2;
    } else {
      assert t / 2 == Toggle(v / 2, k - 1);
      ToggleBit(v / 2, k - 1, j - 1);
    }
  }

  /** Bits 2..5 read off by plain division, `(v >> k) & 1 == (v / 2^k) % 2`. */
  lemma LowBitsByDivision(v: nat)
    ensures Bit(v, 2) == (v / 4 % 2 == 1) && Bit(v, 3) == (v / 8 % 2 == 1)
    ensures Bit(v, 4) == (v / 16 % 2 == 1) && Bit(v, 5) == (v / 32 % 2 == 1)
  {
    var v1, v2, v3, v4, v5 := v / 2, v / 4, v / 8, v / 16, v / 32;
    assert v1 / 2 == v2 && v2 / 2 == v3 && v3 / 2 == v4 && v4 / 2 == v5;
    assert Bit(v, 2) == Bit(v1, 1) == Bit(v2, 0);
    assert Bit(v, 3) == Bit(v1, 2) == Bit(v2, 1) == Bit(v3, 0);
    assert Bit(v, 4) == Bit(v1, 3) == Bit(v2, 2) == Bit(v3, 1) == Bit(v4, 0);
    assert Bit(v, 5) == Bit(v1, 4) == Bit(v2, 3) == Bit(v3, 2) == Bit(v4, 1) == Bit(v5, 0);
  }

  /** `v = 64a + r` with `r = v mod 64`, and how the smaller divisors split over it. */
  lemma SplitAt64(v: nat) returns (a: nat, r: nat)
    ensures v == 64 * a + r && r == v % 64
    ensures v / 4 == 16 * a + r / 4 && v / 8 == 8 * a + r / 8
    ensures v / 16 == 4 * a + r / 16 && v / 32 == 2 * a + r / 32
    ensures v % 4 == r % 4
  {
    a, r := v / 64, v % 64;
  }

  lemma ParityOfEvenShift(a: nat, x: nat)
    ensures (2 * a + x) % 2 == x % 2
  {
  }

  /** Values equal modulo 64 agree on the quotients that expose bits 0..5. */
  lemma AgreeModulo64(v: nat, w: nat)
    requires v % 64 == w % 64
    ensures v / 4 % 2 == w / 4 % 2 && v / 8 % 2 == w / 8 % 2
    ensures v / 16 % 2 == w / 16 % 2 && v / 32 % 2 == w / 32 % 2
    ensures v % 4 == w % 4
  {
    var a, r := SplitAt64(v);
    var b, _ := SplitAt64(w);
    ParityOfEvenShift(8 * a, r / 4); ParityOfEvenShift(8 * b, r / 4);
    ParityOfEvenShift(4 * a, r / 8); ParityOfEvenShift(4 * b, r / 8);
    ParityOfEvenShift(2 * a, r / 16); ParityOfEvenShift(2 * b, r / 16);
    ParityOfEvenShift(a, r / 32); ParityOfEvenShift(b, r / 32);
  }

  function Label(b: bool, yes: string, no: string): string {
    if b then yes else no
  }

  // ---------------------------------------------------------------- authentication requirements

  /** The record both authentication-requirement decoders return. */
  datatype AuthFlags = AuthFlags(
    bonding: string,
    mitm: string,
    secureConnections: string,
    keypress: string,
    ct2: string,
    rawValue: string)

  function AuthAll(tag: string, raw: string): AuthFlags {
    AuthFlags(tag, tag, tag, tag, tag, raw)
  }

  /** The flag fields of an authentication record (everything but the raw value). */
  function AuthLabels(a: AuthFlags): seq<string> {
    [a.bonding, a.mitm, a.secureConnections, a.keypress, a.ct2]
  }

  /** L2CAP layout: bonding is the single bit 0, then MITM, SC, keypress, CT2 in bits 1..4. */
  function L2capFlagsOf(v: nat, raw: string): (r: AuthFlags)
    ensures r.bonding == (if Bit(v, 0) then "Bonding" else "No Bonding")
    ensures r.mitm == "Required" <==> Bit(v, 1)
    ensures r.secureConnections == "Required" <==> Bit(v, 2)
    ensures r.keypress == "Used" <==> Bit(v, 3)
    ensures r.ct2 == "Supported" <==> Bit(v, 4)
    ensures !Bit(v, 1) ==> r.mitm == "Not Required"
    ensures !Bit(v, 2) ==> r.secureConnections == "Not Required"
    ensures !Bit(v, 3) ==> r.keypress == "Not Used"
    ensures !Bit(v, 4) ==> r.ct2 == "Not Supported"
    ensures r.rawValue == raw
  {
    AuthFlags(
      Label(Bit(v, 0), "Bonding", "No Bonding"),
      Label(Bit(v, 1), "Required", "Not Required"),
      Label(Bit(v, 2), "Required", "Not Required"),
      Label(Bit(v, 3), "Used", "Not Used"),
      Label(Bit(v, 4), "Supported", "Not Supported"),
      raw)
  }

  /** `_decode_l2cap_flags`. */
  function DecodeL2capFlags(flagsHex: string): (r: AuthFlags)
    ensures flagsHex == "" ==> r == AuthAll(UNKNOWN, UNKNOWN)
    ensures flagsHex != "" ==> r.rawValue == flagsHex
    ensures flagsHex != "" && ParseHex(flagsHex).None? ==> r == AuthAll(ERROR, flagsHex)
    ensures ParseHex(flagsHex).Some? ==> r == L2capFlagsOf(ParseHex(flagsHex).value, flagsHex)
  {
    if flagsHex == "" then AuthAll(UNKNOWN, UNKNOWN)
    else match ParseHex(flagsHex)
      case None => AuthAll(ERROR, flagsHex)
      case Some(v) => L2capFlagsOf(v, flagsHex)
  }

  /** SMP layout: bonding is the two-bit field in bits 0..1, then MITM, SC, keypress, CT2 in bits 2..5. */
  function SmpAuthOf(v: nat, raw: string): (r: AuthFlags)
    ensures r.bonding == (if v % 4 == 0 then "No Bonding"
                          else if v % 4 == 1 then "Bonding"
                          else if v % 4 == 2 then "Reserved (0x02)"
                          else "Reserved (0x03)")
    ensures r.mitm == "Required" <==> Bit(v, 2)
    ensures r.secureConnections == "Required" <==> Bit(v, 3)
    ensures r.keypress == "Used" <==> Bit(v, 4)
    ensures r.ct2 == "Supported" <==> Bit(v, 5)
    ensures !Bit(v, 2) ==> r.mitm == "Not Required"
    ensures !Bit(v, 3) ==> r.secureConnections == "Not Required"
    ensures !Bit(v, 4) ==> r.keypress == "Not Used"
    ensures !Bit(v, 5) ==> r.ct2 == "Not Supported"
    ensures r.rawValue == raw
  {
    var bondingFlags := v % 4;
    var bonding :=
      if bondingFlags == 0 then "No Bonding"
      else if bondingFlags == 1 then "Bonding"
      else if bondingFlags == 2 then "Reserved (0x02)"
      else "Reserved (0x03)";
    AuthFlags(
      bonding,
      Label(Bit(v, 2), "Required", "Not Required"),
      Label(Bit(v, 3), "Required", "Not Required"),
      Label(Bit(v, 4), "Used", "Not Used"),
      Label(Bit(v, 5), "Supported", "Not Supported"),
      raw)
  }

  /** `_decode_smp_auth_requirements`. */
  function DecodeSmpAuthRequirements(authReqHex: string): (r: AuthFlags)
    ensures authReqHex == "" ==> r == AuthAll(UNKNOWN, UNKNOWN)
    ensures authReqHex != "" ==> r.rawValue == authReqHex
    ensures authReqHex != "" && ParseHex(authReqHex).None? ==> r == AuthAll(ERROR, authReqHex)
    ensures ParseHex(authReqHex).Some? ==> r == SmpAuthOf(ParseHex(authReqHex).value, authReqHex)
  {
    if authReqHex == "" then AuthAll(UNKNOWN, UNKNOWN)
    else match ParseHex(authReqHex)
      case None => AuthAll(ERROR, authReqHex)
      case Some(v) => SmpAuthOf(v, authReqHex)
  }

  /** Every flag of the SMP record is determined by the low six bits, `v mod 64`. */
  lemma SmpAuthDependsOnLowSixBits(v: nat, w: nat, raw: string)
    requires v % 64 == w % 64
    ensures AuthLabels(SmpAuthOf(v, raw)) == AuthLabels(SmpAuthOf(w, raw))
  {
    AgreeModulo64(v, w);
    LowBitsByDivision(v);
    LowBitsByDivision(w);
  }

  /** The same, stated on the strings: two inputs whose values agree modulo 64 decode alike. */
  lemma SmpAuthStringsAgreeModulo64(s: string, t: string)
    requires ParseHex(s).Some? && ParseHex(t).Some?
    requires ParseHex(s).value % 64 == ParseHex(t).value % 64
    ensures AuthLabels(DecodeSmpAuthRequirements(s)) == AuthLabels(DecodeSmpAuthRequirements(t))
  {
    SmpAuthDependsOnLowSixBits(ParseHex(s).value, ParseHex(t).value, s);
    assert AuthLabels(SmpAuthOf(ParseHex(t).value, s)) == AuthLabels(SmpAuthOf(ParseHex(t).value, t));
  }

  /**
   * The two layouts are not interchangeable: `"0x04"` has only bit 2 set,
   * which the SMP decoder reads as MITM and the L2CAP decoder as SC.
   */
  lemma L2capAndSmpDisagreeOn0x04()
    ensures DecodeSmpAuthRequirements("0x04").mitm == "Required"
    ensures DecodeL2capFlags("0x04").mitm == "Not Required"
    ensures DecodeL2capFlags("0x04").secureConnections == "Required"
    ensures DecodeSmpAuthRequirements("0x04").secureConnections == "Not Required"
  {
    ParseHexTwoDigits('0', '4');
    assert Bit(4, 2) && !Bit(4, 1) && !Bit(4, 3);
  }

  // ---------------------------------------------------------------- IO capability

  const IO_DISPLAY_ONLY := "DisplayOnly - Peripheral can display a 6-digit value"
  const IO_DISPLAY_YES_NO := "DisplayYesNo - Peripheral can display and respond yes/no"
  const IO_KEYBOARD_ONLY := "KeyboardOnly - Peripheral has keyboard input only"
  const IO_NO_INPUT_NO_OUTPUT := "NoInputNoOutput - No input and no output (Just Works)"
  const IO_KEYBOARD_DISPLAY := "KeyboardDisplay - Peripheral has keyboard input and display"

  /** The capability table with its decimal and its `0x`-prefixed keys. */
  const IoCapMapping: map<string, string> := map[
    "0" := IO_DISPLAY_ONLY,
    "1" := IO_DISPLAY_YES_NO,
    "2" := IO_KEYBOARD_ONLY,
    "3" := IO_NO_INPUT_NO_OUTPUT,
    "4" := IO_KEYBOARD_DISPLAY,
    "0x00" := IO_DISPLAY_ONLY,
    "0x01" := IO_DISPLAY_YES_NO,
    "0x02" := IO_KEYBOARD_ONLY,
    "0x03" := IO_NO_INPUT_NO_OUTPUT,
    "0x04" := IO_KEYBOARD_DISPLAY
  ]

  /** The description of capability code `d` (0..4). */
  function IoCapDescription(d: nat): string
    requires d < 5
  {
    [IO_DISPLAY_ONLY, IO_DISPLAY_YES_NO, IO_KEYBOARD_ONLY, IO_NO_INPUT_NO_OUTPUT, IO_KEYBOARD_DISPLAY][d]
  }

  /**
   * `_decode_smp_io_capability`: every `0x` is removed from the input before
   * the table lookup; a miss yields `Unknown IO Capability (0x<rest>)`.
   */
  function DecodeIoCapability(ioCapHex: string): (r: string)
    ensures ioCapHex == "" ==> r == UNKNOWN
    ensures ioCapHex != "" && RemoveAll(ioCapHex, "0x") !in IoCapMapping ==>
              r == "Unknown IO Capability (0x" + RemoveAll(ioCapHex, "0x") + ")"
    ensures ioCapHex != "" && RemoveAll(ioCapHex, "0x") in IoCapMapping ==>
              r == IoCapMapping[RemoveAll(ioCapHex, "0x")]
  {
    if ioCapHex == "" then UNKNOWN
    else
      var stripped := RemoveAll(ioCapHex, "0x");
      if stripped in IoCapMapping then IoCapMapping[stripped]
      else "Unknown IO Capability (0x" + stripped + ")"
  }

  /** The five decimal codes `'0'`..`'4'` name the five capabilities. */
  lemma IoCapDecimalCodes(d: nat)
    requires d < 5
    ensures DecodeIoCapability([DigitChar(d)]) == IoCapDescription(d)
  {
  }

  /**
   * A prefixed two-digit code such as `'0x03'` loses its prefix and never
   * matches: neither a one-character nor a `'0x..'` key has two characters.
   */
  lemma IoCapPrefixedCodeIsUnknown(hi: char, lo: char)
    requires IsHexDigit(hi) && IsHexDigit(lo)
    ensures DecodeIoCapability(['0', 'x', hi, lo]) == "Unknown IO Capability (0x" + [hi, lo] + ")"
  {
    var s := ['0', 'x', hi, lo];
    assert s[..2] == "0x" && s[2..] == [hi, lo];
    assert [hi, lo][1] != 'x' by { assert IsHexDigit(lo); }
    assert [hi, lo][..2] != "0x" by { assert [hi, lo][..2][1] == [hi, lo][1]; }
    assert RemoveAll(s, "0x") == [hi, lo];
  }

  lemma JustWorksPrefixedCodeIsUnknown()
    ensures DecodeIoCapability("0x03") == "Unknown IO Capability (0x03)"
  {
    IoCapPrefixedCodeIsUnknown('0', '3');
  }

  /**
   * The `'0x..'` keys are reachable only through the removal closing up a
   * new `0x`: `"00xx03"` strips to `"0x03"`.
   */
  lemma IoCapHexKeyReachableAfterStripping()
    ensures DecodeIoCapability("00xx03") == IO_NO_INPUT_NO_OUTPUT
  {
    var s := "00xx03";
    assert "03"[..2] == "03" && "03"[1..] == "3";
    assert RemoveAll("03", "0x") == "03";
    assert "x03"[..2] == "x0" && "x03"[1..] == "03";
    assert RemoveAll("x03", "0x") == "x03";
    assert "0xx03"[..2] == "0x" && "0xx03"[2..] == "x03";
    assert RemoveAll("0xx03", "0x") == "x03";
    assert s[..2] == "00" && s[1..] == "0xx03";
    assert RemoveAll(s, "0x") == "0x03";
  }

  // ---------------------------------------------------------------- key distribution

  datatype KeyDistribution = KeyDistribution(
    encKey: string,
    idKey: string,
    sign: string,
    linkKey: string,
    rawValue: string)

  function KeyDistAll(tag: string, raw: string): KeyDistribution {
    KeyDistribution(tag, tag, tag, tag, raw)
  }

  /** Field `j` (0 LTK, 1 IRK, 2 CSRK, 3 link key) of a key-distribution record. */
  function KeyDistField(k: KeyDistribution, j: nat): string
    requires j < 4
  {
    [k.encKey, k.idKey, k.sign, k.linkKey][j]
  }

  function KeyDistributionOf(v: nat, raw: string): (r: KeyDistribution)
    ensures r.encKey == "LTK Distribution" <==> Bit(v, 0)
    ensures r.idKey == "IRK & Address Distribution" <==> Bit(v, 1)
    ensures r.sign == "CSRK Distribution" <==> Bit(v, 2)
    ensures r.linkKey == "BR/EDR Link Key derivation" <==> Bit(v, 3)
    ensures !Bit(v, 0) ==> r.encKey == "No LTK"
    ensures !Bit(v, 1) ==> r.idKey == "No IRK"
    ensures !Bit(v, 2) ==> r.sign == "No CSRK"
    ensures !Bit(v, 3) ==> r.linkKey == "No BR/EDR Link Key"
    ensures r.rawValue == raw
  {
    KeyDistribution(
      Label(Bit(v, 0), "LTK Distribution", "No LTK"),
      Label(Bit(v, 1), "IRK & Address Distribution", "No IRK"),
      Label(Bit(v, 2), "CSRK Distribution", "No CSRK"),
      Label(Bit(v, 3), "BR/EDR Link Key derivation", "No BR/EDR Link Key"),
      raw)
  }

  /** `_decode_smp_key_distribution`. */
  function DecodeKeyDistribution(keyDistHex: string): (r: KeyDistribution)
    ensures keyDistHex == "" ==> r == KeyDistAll(UNKNOWN, UNKNOWN)
    ensures keyDistHex != "" ==> r.rawValue == keyDistHex
    ensures keyDistHex != "" && ParseHex(keyDistHex).None? ==> r == KeyDistAll(ERROR, keyDistHex)
    ensures ParseHex(keyDistHex).Some? ==> r == KeyDistributionOf(ParseHex(keyDistHex).value, keyDistHex)
  {
    if keyDistHex == "" then KeyDistAll(UNKNOWN, UNKNOWN)
    else match ParseHex(keyDistHex)
      case None => KeyDistAll(ERROR, keyDistHex)
      case Some(v) => KeyDistributionOf(v, keyDistHex)
  }

  /** Each key-distribution field is decided by its own bit: flipping bit `k` changes field `k` only. */
  lemma KeyDistToggleChangesOneField(v: nat, k: nat, j: nat, raw: string)
    requires k < 4 && j < 4
    ensures KeyDistField(KeyDistributionOf(Toggle(v, k), raw), j) != KeyDistField(KeyDistributionOf(v, raw), j)
            <==> j == k
  {
    ToggleBit(v, k, j);
  }

  // ---------------------------------------------------------------- ATT opcodes

  datatype AttOpcode = AttOpcode(opcode: string, description: string, kind: string)

  /** The opcode table as the source writes it (its numbering is one below the ATT standard's). */
  const AttOpcodes: map<string, string> := map[
    "0x01" := "Exchange MTU Request",
    "0x02" := "Exchange MTU Response",
    "0x03" := "Find Information Request",
    "0x04" := "Find Information Response",
    "0x05" := "Find By Type Value Request",
    "0x06" := "Find By Type Value Response",
    "0x07" := "Read By Type Request",
    "0x08" := "Read By Type Response",
    "0x09" := "Read Request",
    "0x0A" := "Read Response",
    "0x0B" := "Read Blob Request",
    "0x0C" := "Read Blob Response",
    "0x0D" := "Read Multiple Request",
    "0x0E" := "Read Multiple Response",
    "0x0F" := "Read By Group Type Request",
    "0x10" := "Read By Group Type Response",
    "0x11" := "Write Request",
    "0x12" := "Write Response",
    "0x13" := "Write Command",
    "0x16" := "Prepare Write Request",
    "0x17" := "Prepare Write Response",
    "0x18" := "Execute Write Request",
    "0x19" := "Execute Write Response",
    "0x1B" := "Handle Value Notification",
    "0x1D" := "Handle Value Indication",
    "0x1E" := "Handle Value Confirmation",
    "0x52" := "Write Command (No confirmation)"
  ]

  const ReadOpcodes: set<string> := {"0x09", "0x0A", "0x0B", "0x0C", "0x0D", "0x0E"}
  const WriteOpcodes: set<string> := {"0x11", "0x12", "0x13", "0x16", "0x17", "0x18", "0x19", "0x52"}
  const NotifyOpcodes: set<string> := {"0x1B", "0x1D", "0x1E"}

  /** The class of an opcode: the table it is listed in (the three are disjoint), else "Other". */
  function OpcodeClass(opcode: string): (r: string)
    ensures r == "Read" <==> opcode in ReadOpcodes
    ensures r == "Write" <==> opcode in WriteOpcodes
    ensures r == "Notification/Indication" <==> opcode in NotifyOpcodes
    ensures r == "Other" <==> opcode !in ReadOpcodes + WriteOpcodes + NotifyOpcodes
  {
    if opcode in ReadOpcodes then "Read"
    else if opcode in WriteOpcodes then "Write"
    else if opcode in NotifyOpcodes then "Notification/Indication"
    else "Other"
  }

  /** `_decode_att_opcode`: the opcode is given a `0x` prefix when it lacks one, then looked up and classified. */
  function DecodeAttOpcode(opcodeHex: string): (r: AttOpcode)
    ensures StartsWith(r.opcode, "0x")
    ensures StartsWith(opcodeHex, "0x") ==> r.opcode == opcodeHex
    ensures !StartsWith(opcodeHex, "0x") ==> r.opcode == "0x" + opcodeHex
    ensures r.kind in {"Read", "Write", "Notification/Indication", "Other"}
    ensures r.kind == "Read" <==> r.opcode in ReadOpcodes
    ensures r.kind == "Write" <==> r.opcode in WriteOpcodes
    ensures r.kind == "Notification/Indication" <==> r.opcode in NotifyOpcodes
    ensures r.kind != "Other" ==> r.opcode in AttOpcodes
    ensures r.opcode in AttOpcodes ==> r.description == AttOpcodes[r.opcode]
    ensures r.opcode !in AttOpcodes ==> r.description == "Unknown Opcode: " + r.opcode
  {
    var opcode := if StartsWith(opcodeHex, "0x") then opcodeHex else "0x" + opcodeHex;
    var description := if opcode in AttOpcodes then AttOpcodes[opcode] else "Unknown Opcode: " + opcode;
    AttOpcode(opcode, description, OpcodeClass(opcode))
  }

  /** Decoding the returned opcode again returns the same record. */
  lemma AttOpcodeIdempotent(opcodeHex: string)
    ensures DecodeAttOpcode(DecodeAttOpcode(opcodeHex).opcode) == DecodeAttOpcode(opcodeHex)
  {
  }

  /** The table is case-sensitive: a lower-case `0x0a` is neither described nor classified. */
  lemma AttOpcodeLowerCaseUnknown()
    ensures DecodeAttOpcode("0x0a") == AttOpcode("0x0a", "Unknown Opcode: 0x0a", "Other")
  {
    assert "0x0a"[..2] == "0x";
  }

  /** An opcode given without its prefix is decoded as the prefixed one. */
  lemma AttOpcodeUnprefixed()
    ensures DecodeAttOpcode("0A") == AttOpcode("0x0A", "Read Response", "Read")
  {
    assert "0A"[..2] == "0A" && "0A"[1] != 'x';
    assert "0x" + "0A" == "0x0A";
  }

  // ---------------------------------------------------------------- attribute permissions

  datatype Permissions = Permissions(
    readable: string,
    writable: string,
    readAuth: string,
    writeAuth: string,
    readAuthor: string,
    writeAuthor: string,
    readEncrypt: string,
    writeEncrypt: string,
    rawValue: string)

  function PermissionsAll(tag: string, raw: string): Permissions {
    Permissions(tag, tag, tag, tag, tag, tag, tag, tag, raw)
  }

  /** Field `j` (in bit order 0..7) of a permissions record. */
  function PermissionField(p: Permissions, j: nat): string
    requires j < 8
  {
    [p.readable, p.writable, p.readAuth, p.writeAuth,
     p.readAuthor, p.writeAuthor, p.readEncrypt, p.writeEncrypt][j]
  }

  function PermissionsOf(v: nat, raw: string): (r: Permissions)
    ensures r.readable == "Yes" <==> Bit(v, 0)
    ensures r.writable == "Yes" <==> Bit(v, 1)
    ensures forall j :: 2 <= j < 8 ==> (PermissionField(r, j) == "Required" <==> Bit(v, j))
    ensures !Bit(v, 0) ==> r.readable == "No"
    ensures !Bit(v, 1) ==> r.writable == "No"
    ensures forall j :: 2 <= j < 8 && !Bit(v, j) ==> PermissionField(r, j) == "Not Required"
    ensures r.rawValue == raw
  {
    Permissions(
      Label(Bit(v, 0), "Yes", "No"),
      Label(Bit(v, 1), "Yes", "No"),
      Label(Bit(v, 2), "Required", "Not Required"),
      Label(Bit(v, 3), "Required", "Not Required"),
      Label(Bit(v, 4), "Required", "Not Required"),
      Label(Bit(v, 5), "Required", "Not Required"),
      Label(Bit(v, 6), "Required", "Not Required"),
      Label(Bit(v, 7), "Required", "Not Required"),
      raw)
  }

  /** `_decode_att_permissions`. */
  function DecodeAttPermissions(permHex: string): (r: Permissions)
    ensures permHex == "" ==> r == PermissionsAll(UNKNOWN, UNKNOWN)
    ensures permHex != "" ==> r.rawValue == permHex
    ensures permHex != "" && ParseHex(permHex).None? ==> r == PermissionsAll(ERROR, permHex)
    ensures ParseHex(permHex).Some? ==> r == PermissionsOf(ParseHex(permHex).value, permHex)
  {
    if permHex == "" then PermissionsAll(UNKNOWN, UNKNOWN)
    else match ParseHex(permHex)
      case None => PermissionsAll(ERROR, permHex)
      case Some(v) => PermissionsOf(v, permHex)
  }

  /** Each permission field is decided by its own bit: flipping bit `k` changes field `k` only. */
  lemma PermissionToggleChangesOneField(v: nat, k: nat, j: nat, raw: string)
    requires k < 8 && j < 8
    ensures PermissionField(PermissionsOf(Toggle(v, k), raw), j) != PermissionField(PermissionsOf(v, raw), j)
            <==> j == k
  {
    ToggleBit(v, k, j);
  }
}
