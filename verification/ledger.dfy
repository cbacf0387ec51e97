/**
 * The vulnerability ledger of `BluetoothSecurityAnalyzer` (Babbi.py): a finding
 * is recorded once per (description, device) pair, in the order it was first
 * reported, and the whole ledger is summarised by a risk score of 0..100.
 */
module Ledger {

  /**
   * One entry of `self.vulnerabilities`. Every finding the analyzer raises
   * names the device it concerns, so the device is an address string.
   */
  datatype Vulnerability = Vulnerability(description: string, device: string, severity: int)

  /** `v` reports the issue `description` about `device` (whatever its severity). */
  predicate SameIssue(v: Vulnerability, description: string, device: string) {
    v.description == description && v.device == device
  }

  /** Some entry of `ledger` already reports `description` about `device`. */
  predicate Records(ledger: seq<Vulnerability>, description: string, device: string) {
    exists i :: 0 <= i < |ledger| && SameIssue(ledger[i], description, device)
  }

  /** No two entries report the same issue about the same device. */
  predicate Deduplicated(ledger: seq<Vulnerability>) {
    forall i, j :: 0 <= i < j < |ledger| ==> !SameIssue(ledger[j], ledger[i].description, ledger[i].device)
  }

  predicate SeveritiesIn(ledger: seq<Vulnerability>, lo: int, hi: int) {
    forall i :: 0 <= i < |ledger| ==> lo <= ledger[i].severity <= hi
  }

  /**
   * The duplicate scan of `_register_vulnerability`: walks the ledger and
   * stops at the first entry with the same description and device.
   */
  method FindVulnerability(ledger: seq<Vulnerability>, description: string, device: string)
    returns (found: bool)
    ensures found <==> Records(ledger, description, device)
  {
    var i := 0;
    while i < |ledger|
      invariant 0 <= i <= |ledger|
      invariant forall k :: 0 <= k < i ==> !SameIssue(ledger[k], description, device)
    {
      if ledger[i].description == description && ledger[i].device == device {
        return true;
      }
      i := i + 1;
    }
    return false;
  }

  /**
   * The ledger after `_register_vulnerability(description, device, severity)`:
   * unchanged when the issue is already recorded for that device, otherwise
   * extended by one entry at the end.
   */
  function Registered(ledger: seq<Vulnerability>, description: string, device: string, severity: int)
    : (r: seq<Vulnerability>)
    ensures Records(r, description, device)
    ensures |ledger| <= |r| <= |ledger| + 1 && r[..|ledger|] == ledger
    ensures Records(ledger, description, device) <==> r == ledger
    ensures |r| == |ledger| + 1 ==> r[|ledger|] == Vulnerability(description, device, severity)
  {
    if Records(ledger, description, device) then ledger
    else
      var r := ledger + [Vulnerability(description, device, severity)];
      assert SameIssue(r[|ledger|], description, device);
      r
  }

  /**
   * Registration keeps the ledger free of duplicates, and keeps every
   * severity in 1..5 when the new one is.
   */
  lemma RegisteredKeepsLedger(ledger: seq<Vulnerability>, description: string, device: string, severity: int)
    ensures Deduplicated(ledger) ==> Deduplicated(Registered(ledger, description, device, severity))
    ensures SeveritiesIn(ledger, 1, 5) && 1 <= severity <= 5 ==> SeveritiesIn(Registered(ledger, description, device, severity), 1, 5)
  {
    var r := Registered(ledger, description, device, severity);
    if r != ledger && Deduplicated(ledger) {
      forall i, j | 0 <= i < j < |r|
        ensures !SameIssue(r[j], r[i].description, r[i].device)
      {
        if j == |ledger| {
          assert r[i] == ledger[i];
        } else {
          assert r[i] == ledger[i] && r[j] == ledger[j];
        }
      }
    }
  }

  /**
   * `_register_vulnerability` on the ledger itself: the duplicate scan, then
   * an append when the scan found nothing.
   */
  method Register(ledger: seq<Vulnerability>, description: string, device: string, severity: int)
    returns (r: seq<Vulnerability>)
    ensures r == Registered(ledger, description, device, severity)
  {
    var found := FindVulnerability(ledger, description, device);
    r := ledger;
    if !found {
      r := r + [Vulnerability(description, device, severity)];
    }
  }

  /** Reporting an issue a second time, at any severity, changes nothing: the first report stands. */
  lemma RegisteredIdempotent(ledger: seq<Vulnerability>, description: string, device: string, s1: int, s2: int)
    ensures Registered(Registered(ledger, description, device, s1), description, device, s2)
         == Registered(ledger, description, device, s1)
  {
  }

  /** After a report an issue is on record exactly when it was before or is the one reported. */
  lemma RegisteredRecords(ledger: seq<Vulnerability>, description: string, device: string, severity: int,
                          other: string, otherDevice: string)
    ensures Records(Registered(ledger, description, device, severity), other, otherDevice)
        <==> Records(ledger, other, otherDevice) || (other == description && otherDevice == device)
  {
    var r := Registered(ledger, description, device, severity);
    if Records(r, other, otherDevice) && !(other == description && otherDevice == device) {
      var i :| 0 <= i < |r| && SameIssue(r[i], other, otherDevice);
      if i < |ledger| {
        assert r[i] == r[..|ledger|][i];
      }
    }
    if Records(ledger, other, otherDevice) {
      var i :| 0 <= i < |ledger| && SameIssue(ledger[i], other, otherDevice);
      assert r[..|ledger|][i] == r[i];
    }
  }

  /** The ledger after reporting every finding of `findings` in turn. */
  function RegisterAll(ledger: seq<Vulnerability>, findings: seq<Vulnerability>): (r: seq<Vulnerability>)
    ensures |ledger| <= |r| <= |ledger| + |findings| && r[..|ledger|] == ledger
    decreases |findings|
  {
    if findings == [] then ledger
    else
      var f := findings[0];
      var next := Registered(ledger, f.description, f.device, f.severity);
      var r := RegisterAll(next, findings[1..]);
      assert r[..|ledger|] == ledger by { assert r[..|ledger|] == next[..|ledger|]; }
      r
  }

  /**
   * After a batch every finding of it is on record, and every entry added is
   * one of the batch's findings.
   */
  lemma {:induction false} RegisterAllSound(ledger: seq<Vulnerability>, findings: seq<Vulnerability>)
    ensures var r := RegisterAll(ledger, findings);
      && (forall k :: 0 <= k < |findings| ==> Records(r, findings[k].description, findings[k].device))
      && (forall i :: |ledger| <= i < |r| ==> r[i] in findings)
    decreases |findings|
  {
    if findings != [] {
      var f := findings[0];
      var next := Registered(ledger, f.description, f.device, f.severity);
      var r := RegisterAll(next, findings[1..]);
      RegisterAllSound(next, findings[1..]);
      assert r[..|next|] == next;
      assert Records(r, f.description, f.device) by {
        var i :| 0 <= i < |next| && SameIssue(next[i], f.description, f.device);
        assert r[i] == next[i];
      }
      forall k | 0 <= k < |findings|
        ensures Records(r, findings[k].description, findings[k].device)
      {
        if k > 0 {
          assert findings[k] == findings[1..][k - 1];
        }
      }
      forall i | |ledger| <= i < |r|
        ensures r[i] in findings
      {
        if i >= |next| {
          assert r[i] in findings[1..];
        } else {
          assert r[i] == next[i] == f;
        }
      }
    }
  }

  /** A batch of registrations keeps the ledger free of duplicates. */
  lemma {:induction false} RegisterAllDeduplicated(ledger: seq<Vulnerability>, findings: seq<Vulnerability>)
    requires Deduplicated(ledger)
    ensures Deduplicated(RegisterAll(ledger, findings))
    decreases |findings|
  {
    if findings != [] {
      var f := findings[0];
      RegisteredKeepsLedger(ledger, f.description, f.device, f.severity);
      RegisterAllDeduplicated(Registered(ledger, f.description, f.device, f.severity), findings[1..]);
    }
  }

  /** Registration only ever adds findings of the batch, so severity bounds both share carry over. */
  lemma RegisterAllSeverities(ledger: seq<Vulnerability>, findings: seq<Vulnerability>, lo: int, hi: int)
    requires SeveritiesIn(ledger, lo, hi) && SeveritiesIn(findings, lo, hi)
    ensures SeveritiesIn(RegisterAll(ledger, findings), lo, hi)
  {
    var r := RegisterAll(ledger, findings);
    RegisterAllSound(ledger, findings);
    forall i | 0 <= i < |r|
      ensures lo <= r[i].severity <= hi
    {
      if i < |ledger| {
        assert r[i] == r[..|ledger|][i];
      } else {
        assert r[i] in findings;
      }
    }
  }

  /** Registering two batches one after the other is registering their concatenation. */
  lemma {:induction false} RegisterAllAppend(ledger: seq<Vulnerability>, xs: seq<Vulnerability>, ys: seq<Vulnerability>)
    ensures RegisterAll(RegisterAll(ledger, xs), ys) == RegisterAll(ledger, xs + ys)
    decreases |xs|
  {
    if xs != [] {
      var f := xs[0];
      assert (xs + ys)[0] == f && (xs + ys)[1..] == xs[1..] + ys;
      RegisterAllAppend(Registered(ledger, f.description, f.device, f.severity), xs[1..], ys);
    } else {
      assert xs + ys == ys;
    }
  }

  /** Registering one more finding after a batch. */
  lemma RegisterAllSnoc(ledger: seq<Vulnerability>, xs: seq<Vulnerability>, x: Vulnerability)
    ensures RegisterAll(ledger, xs + [x]) == Registered(RegisterAll(ledger, xs), x.description, x.device, x.severity)
  {
    RegisterAllAppend(ledger, xs, [x]);
    var m := RegisterAll(ledger, xs);
    assert [x][1..] == [];
    assert RegisterAll(m, [x]) == RegisterAll(Registered(m, x.description, x.device, x.severity), []);
  }

  /** `sum(v['severity'] for v in self.vulnerabilities)`. */
  function SeveritySum(ledger: seq<Vulnerability>): int {
    if ledger == [] then 0 else ledger[0].severity + SeveritySum(ledger[1..])
  }

  lemma {:induction false} SeveritySumBounds(ledger: seq<Vulnerability>, lo: int, hi: int)
    requires SeveritiesIn(ledger, lo, hi)
    ensures lo * |ledger| <= SeveritySum(ledger) <= hi * |ledger|
  {
    if ledger != [] {
      assert SeveritiesIn(ledger[1..], lo, hi) by {
        forall i | 0 <= i < |ledger[1..]| ensures lo <= ledger[1..][i].severity <= hi {
          assert ledger[1..][i] == ledger[i + 1];
        }
      }
      SeveritySumBounds(ledger[1..], lo, hi);
      assert lo <= ledger[0].severity <= hi;
    }
  }

  function MinReal(a: real, b: real): real {
    if a <= b then a else b
  }

  /** The weight `min(len(devices), 10) / 10` the device count adds to the score. */
  function DeviceFactor(deviceCount: nat): (f: real)
    ensures 0.0 <= f <= 1.0
    ensures deviceCount >= 10 ==> f == 1.0
  {
    (if deviceCount < 10 then deviceCount else 10) as real / 10.0
  }

  /**
   * `_calculate_risk_score`: zero for an empty ledger, otherwise the mean
   * severity as a fraction of the maximum 5, in percent, raised by the
   * device factor and capped at 100. Exact rational arithmetic replaces
   * Python's floats.
   */
  function RiskScore(ledger: seq<Vulnerability>, deviceCount: nat): (score: real)
    ensures ledger == [] ==> score == 0.0
    ensures score <= 100.0
  {
    if ledger == [] then 0.0
    else
      var severitySum := SeveritySum(ledger) as real;
      var severityCount := |ledger| as real;
      MinReal(100.0, severitySum / (severityCount * 5.0) * 100.0 * (1.0 + DeviceFactor(deviceCount)))
  }

  /** With no negative severity the score is never below zero: it lies in [0, 100]. */
  lemma RiskScoreNonNegative(ledger: seq<Vulnerability>, deviceCount: nat)
    requires SeveritiesIn(ledger, 0, 5)
    ensures 0.0 <= RiskScore(ledger, deviceCount) <= 100.0
  {
    if ledger != [] {
      SeveritySumBounds(ledger, 0, 5);
      var ratio := SeveritySum(ledger) as real / (|ledger| as real * 5.0);
      assert 0.0 <= ratio;
      assert 0.0 <= ratio * 100.0 * (1.0 + DeviceFactor(deviceCount));
    }
  }

  /** A ledger of nothing but severity-5 findings scores the full 100, whatever the device count. */
  lemma RiskScoreOfMaximalLedger(ledger: seq<Vulnerability>, deviceCount: nat)
    requires ledger != [] && SeveritiesIn(ledger, 5, 5)
    ensures RiskScore(ledger, deviceCount) == 100.0
  {
    SeveritySumBounds(ledger, 5, 5);
    var n := |ledger| as real;
    assert SeveritySum(ledger) as real == n * 5.0;
    assert (n * 5.0) / (n * 5.0) == 1.0;
  }

  /** Severities 5, 4 and 3 over two devices: 12 / 15 * 100 * 1.2 = 96. */
  lemma RiskScoreExample()
    ensures RiskScore([Vulnerability("a", "x", 5), Vulnerability("b", "x", 4), Vulnerability("c", "y", 3)], 2) == 96.0
  {
    var l := [Vulnerability("a", "x", 5), Vulnerability("b", "x", 4), Vulnerability("c", "y", 3)];
    assert l[1..][1..][1..] == [];
    assert SeveritySum(l) == 12;
  }
}
