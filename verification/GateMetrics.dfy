/** Saving gate metrics as JSON text, and reading them back. */
module GateMetrics {
  import opened Wrappers
  import opened Lists
  import opened Text

  type u64 = n: nat | n <= U64_MAX

  datatype GateMetric = GateMetric(gateName: string, durationMs: u64, timestamp: u64, passed: bool)

  datatype GateResult = GateResult(name: string, passed: bool, durationMs: u64)

  /** What `cargo` says about the dependencies, for the end of the file. */
  datatype Audit = Audit(directDependencies: nat, openAdvisories: nat)

  // ---- Printing ----

  function PrintBool(b: bool): string {
    if b then "true" else "false"
  }

  function PrintBit(b: bool): string {
    if b then "1" else "0"
  }

  /** `"key":`, which the reader looks for. */
  function Key(key: string): string {
    "\"" + key + "\":"
  }

  /** `"key": value` */
  function Entry(key: string, value: string): string {
    Key(key) + (" " + value)
  }

  function ObjectLines(g: GateMetric, end: string): seq<string> {
    [ "    {",
      "      " + Entry("gate", "\"" + g.gateName + "\","),
      "      " + Entry("duration_ms", Print(g.durationMs) + ","),
      "      " + Entry("timestamp", Print(g.timestamp) + ","),
      "      " + Entry("passed", PrintBool(g.passed)),
      "    }" + end ]
  }

  /** The objects of all gates, each followed by a comma. */
  function ListedLines(gates: seq<GateMetric>): seq<string> {
    Collect(ListedObject, gates)
  }

  function ListedObject(g: GateMetric): seq<string> {
    ObjectLines(g, ",")
  }

  /** The lines between the brackets. */
  function GatesLines(gates: seq<GateMetric>): seq<string> {
    if gates == [] then [""]
    else ListedLines(gates[..|gates| - 1]) + ObjectLines(gates[|gates| - 1], "")
  }

  function FirstWith(gates: seq<GateMetric>, part: string): Option<GateMetric> {
    if gates == [] then None
    else if Contains(gates[0].gateName, part) then Some(gates[0])
    else FirstWith(gates[1..], part)
  }

  function Passed(gates: seq<GateMetric>, part: string): bool {
    match FirstWith(gates, part)
    case Some(g) => g.passed
    case None => false
  }

  function LicenseDuration(gates: seq<GateMetric>): u64 {
    match FirstWith(gates, "License")
    case Some(g) => g.durationMs
    case None => 0
  }

  function HeadLines(total: u64, now: u64): seq<string> {
    [ "{",
      "  " + Entry("total_duration_ms", Print(total) + ","),
      "  " + Entry("timestamp", Print(now) + ","),
      "  " + Entry("gates", "[") ]
  }

  function SloLines(gates: seq<GateMetric>): seq<string> {
    [ "  " + Entry("slo_compliance", "{"),
      "    " + Entry("license_gate_duration_ms", Print(LicenseDuration(gates)) + ","),
      "    " + Entry("slo_target_ms", "45000,"),
      "    " + Entry("compliant", PrintBool(LicenseDuration(gates) < 45000)),
      "  }," ]
  }

  function AuditLines(gates: seq<GateMetric>, audit: Audit): seq<string> {
    [ "  " + Entry("supply_chain_metrics", "{"),
      "    " + Entry("scm.deps.direct_nondev_total", Print(audit.directDependencies) + ","),
      "    " + Entry("scm.deps.threshold_compliant", PrintBool(audit.directDependencies <= 150) + ","),
      "    " + Entry("scm.licenses.completeness",
                     PrintBit(Passed(gates, "License") && Passed(gates, "Third-Party License")) + ","),
      "    " + Entry("scm.security.advisories_open_total", Print(audit.openAdvisories) + ",") ]
  }

  function StatusLines(gates: seq<GateMetric>): seq<string> {
    [ "    " + Entry("scm.gate.status.licenses", PrintBit(Passed(gates, "License")) + ","),
      "    " + Entry("scm.gate.status.security", PrintBit(Passed(gates, "Security Advisory")) + ","),
      "    " + Entry("scm.gate.status.dependencies", PrintBit(Passed(gates, "Dependency Count")) + ","),
      "    " + Entry("scm.licenses.unified_http_ok", PrintBit(Passed(gates, "Duplicate Major"))),
      "  }" ]
  }

  function TailLines(gates: seq<GateMetric>, audit: Audit): seq<string> {
    ["  ],"] + (SloLines(gates) + (AuditLines(gates, audit) + StatusLines(gates)))
  }

  /** The file, without the brace that ends it. */
  function FileLines(gates: seq<GateMetric>, total: u64, now: u64, audit: Audit): seq<string> {
    HeadLines(total, now) + GatesLines(gates) + TailLines(gates, audit)
  }

  function FileText(gates: seq<GateMetric>, total: u64, now: u64, audit: Audit): string {
    Unlines(FileLines(gates, total, now, audit)) + "}"
  }

  /** One object as it is appended, without the end of its last line. */
  function ObjectText(g: GateMetric): string {
    Unlines(ObjectLines(g, "")[..5]) + "    }"
  }

  lemma ObjectTextEnds(g: GateMetric, end: string)
    ensures ObjectText(g) + (end + "\n") == Unlines(ObjectLines(g, end))
  {
    var ls := ObjectLines(g, end);
    assert ls == ls[..5] + ["    }" + end] && ls[..5] == ObjectLines(g, "")[..5];
    UnlinesAppend(ls[..5], ["    }" + end]);
    assert Unlines(["    }" + end]) == "    }" + end + "\n" + Unlines([]);
    assert Unlines(ls[..5]) + "    }" + (end + "\n") == Unlines(ls[..5]) + ("    }" + end + "\n");
  }

  class MetricsCollector {
    var gateMetrics: seq<GateMetric>

    constructor ()
      ensures gateMetrics == []
    {
      gateMetrics := [];
    }

    method RecordGate(result: GateResult, now: u64)
      modifies this
      ensures gateMetrics == old(gateMetrics) + [GateMetric(result.name, result.durationMs, now, result.passed)]
    {
      gateMetrics := gateMetrics + [GateMetric(result.name, result.durationMs, now, result.passed)];
    }

    method SaveMetrics(total: u64, now: u64, audit: Audit) returns (json: string)
      ensures json == FileText(gateMetrics, total, now, audit)
    {
      var objects := "";
      for i := 0 to |gateMetrics|
        invariant objects == if i == 0 then ""
                             else Unlines(ListedLines(gateMetrics[..i - 1])) + ObjectText(gateMetrics[i - 1])
      {
        if i > 0 {
          objects := objects + ",\n";
          ListedGrows(gateMetrics, i);
        }
        objects := objects + ObjectText(gateMetrics[i]);
      }
      GatesTextEnds(gateMetrics, objects);
      json := Unlines(HeadLines(total, now)) + (objects + "\n") + Unlines(TailLines(gateMetrics, audit)) + "}";
      UnlinesAppend(HeadLines(total, now), GatesLines(gateMetrics));
      UnlinesAppend(HeadLines(total, now) + GatesLines(gateMetrics), TailLines(gateMetrics, audit));
    }
  }

  lemma ListedGrows(gates: seq<GateMetric>, i: nat)
    requires 0 < i < |gates|
    ensures Unlines(ListedLines(gates[..i - 1])) + ObjectText(gates[i - 1]) + ",\n"
         == Unlines(ListedLines(gates[..i]))
  {
    assert gates[..i][..i - 1] == gates[..i - 1];
    UnlinesAppend(ListedLines(gates[..i - 1]), ObjectLines(gates[i - 1], ","));
    ObjectTextEnds(gates[i - 1], ",");
    ConcatAssociates(Unlines(ListedLines(gates[..i - 1])), ObjectText(gates[i - 1]), ",\n");
  }

  lemma GatesTextEnds(gates: seq<GateMetric>, objects: string)
    requires objects == if gates == [] then ""
      else Unlines(ListedLines(gates[..|gates| - 1])) + ObjectText(gates[|gates| - 1])
    ensures objects + "\n" == Unlines(GatesLines(gates))
  {
    if gates == [] {
      assert Unlines([""]) == "" + "\n" + Unlines([]);
    } else {
      var init, last := ListedLines(gates[..|gates| - 1]), gates[|gates| - 1];
      UnlinesAppend(init, ObjectLines(last, ""));
      ObjectTextEnds(last, "");
      assert "" + "\n" == "\n";
      ConcatAssociates(Unlines(init), ObjectText(last), "\n");
    }
  }

  // ---- Parsing ----

  /** The variables of the reader. */
  datatype Reader = Reader(
    inGates: bool, inGate: bool, gate: string, duration: u64, timestamp: u64, passed: bool,
    metrics: seq<GateMetric>)

  const START := Reader(false, false, "", 0, 0, false, [])

  /** The number after `key`, up to a comma. */
  function ReadNumber(t: string, key: string, default: u64): u64 {
    match Find(t, Key(key) + " ")
    case None => default
    case Some(start) =>
      var part := t[start + |Key(key)| + 1..];
      match Find(part, ",")
      case None => default
      case Some(end) => match ParseU64(part[..end]) case Some(n) => n case None => default
  }

  function ReadGate(t: string, default: string): string {
    match Find(t, Key("gate") + " \"")
    case None => default
    case Some(start) =>
      var part := t[start + |Key("gate")| + 2..];
      match Find(part, "\"") case None => default case Some(end) => part[..end]
  }

  function ReadField(s: Reader, t: string): Reader {
    if Contains(t, Key("gate")) then s.(gate := ReadGate(t, s.gate))
    else if Contains(t, Key("duration_ms")) then
      s.(duration := ReadNumber(t, "duration_ms", s.duration))
    else if Contains(t, Key("timestamp")) then
      s.(timestamp := ReadNumber(t, "timestamp", s.timestamp))
    else if Contains(t, Key("passed")) then
      (match Find(t, Key("passed") + " ")
       case None => s
       case Some(start) => s.(passed := "true" <= t[start + |Key("passed")| + 1..]))
    else s
  }

  function Close(s: Reader): Reader {
    Reader(s.inGates, false, "", 0, 0, false,
           s.metrics + [GateMetric(s.gate, s.duration, s.timestamp, s.passed)])
  }

  /** What the reader does on one trimmed line. */
  function ReadLine(s: Reader, t: string): Reader {
    if Contains(t, Key("gates") + " [") then s.(inGates := true)
    else if s.inGates && t == "]," then s.(inGates := false)
    else if s.inGates && t == "{" then s.(inGate := true)
    else if s.inGate then
      var r := ReadField(s, t);
      if t == "}" || t == "}," then Close(r) else r
    else s
  }

  function ReadLines(s: Reader, ls: seq<string>): Reader {
    if ls == [] then s
    else ReadLine(ReadLines(s, ls[..|ls| - 1]), Trim(ls[|ls| - 1]))
  }

  /** The loop of the reader, with its variables in one record. */
  method ParseMetrics(json: string) returns (metrics: seq<GateMetric>)
    ensures metrics == ReadLines(START, Lines(json)).metrics
  {
    var lines := Lines(json);
    var s := START;
    for i := 0 to |lines|
      invariant s == ReadLines(START, lines[..i])
    {
      assert lines[..i + 1][..i] == lines[..i];
      var trimmed := Trim(lines[i]);
      if Contains(trimmed, Key("gates") + " [") {
        s := s.(inGates := true);
        continue;
      }
      if s.inGates && trimmed == "]," {
        s := s.(inGates := false);
        continue;
      }
      if s.inGates && trimmed == "{" {
        s := s.(inGate := true);
        continue;
      }
      if s.inGate {
        s := ReadField(s, trimmed);
        if trimmed == "}" || trimmed == "}," {
          s := Close(s);
        }
      }
    }
    assert lines[..|lines|] == lines;
    metrics := s.metrics;
  }
}
