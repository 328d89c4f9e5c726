/** The text of a saved file around its gates: the head, and the summary lines at the end. */
module GateSummary {
  import opened Wrappers
  import opened Lists
  import opened Text
  import opened GateMetrics

  // ---- The first gate of a kind ----

  /** The name of the gate has `part` in it. */
  ghost predicate Named(g: GateMetric, part: string) {
    exists before: string, after: string :: g.gateName == before + part + after
  }

  /** Gate `i` is the first whose name has `part` in it. */
  ghost predicate IsFirst(gates: seq<GateMetric>, part: string, i: nat) {
    i < |gates| && Named(gates[i], part) && forall j :: 0 <= j < i ==> !Named(gates[j], part)
  }

  ghost predicate NoneNamed(gates: seq<GateMetric>, part: string) {
    forall j :: 0 <= j < |gates| ==> !Named(gates[j], part)
  }

  /** There is such a gate, and the first of them passed. */
  ghost predicate Passes(gates: seq<GateMetric>, part: string) {
    exists i: nat :: IsFirst(gates, part, i) && gates[i].passed
  }

  /** The duration of the first licence gate, or zero if there is none. */
  ghost predicate LicenseTakes(gates: seq<GateMetric>, duration: nat) {
    || (NoneNamed(gates, "License") && duration == 0)
    || (exists i: nat :: IsFirst(gates, "License", i) && gates[i].durationMs == duration)
  }

  lemma NamedContains(g: GateMetric, part: string)
    ensures Contains(g.gateName, part) <==> Named(g, part)
  {
    var name := g.gateName;
    FindIsFirst(name, part);
    if Contains(name, part) {
      var j := Find(name, part).value;
      assert name == name[..j] + part + name[j + |part|..];
    } else if Named(g, part) {
      var before, after :| name == before + part + after;
      assert At(name, |before|, part);
    }
  }

  lemma {:induction false} FirstIsFirst(gates: seq<GateMetric>, part: string) returns (i: nat)
    ensures FirstWith(gates, part) == None ==> NoneNamed(gates, part)
    ensures FirstWith(gates, part).Some? ==> IsFirst(gates, part, i) && gates[i] == FirstWith(gates, part).value
  {
    i := 0;
    if gates != [] {
      NamedContains(gates[0], part);
      if !Contains(gates[0].gateName, part) {
        i := FirstIsFirst(gates[1..], part);
        i := i + 1;
        assert forall j :: 0 < j < |gates| ==> gates[j] == gates[1..][j - 1];
      }
    }
  }

  lemma PassedExactly(gates: seq<GateMetric>, part: string)
    ensures Passed(gates, part) <==> Passes(gates, part)
  {
    var i := FirstIsFirst(gates, part);
  }

  lemma LicenseExactly(gates: seq<GateMetric>)
    ensures LicenseTakes(gates, LicenseDuration(gates))
  {
    var i := FirstIsFirst(gates, "License");
  }

  // ---- Lines ----

  /** A quoted key, a colon, a blank and a value. */
  function Field(indent: string, key: string, value: string): string {
    indent + ("\"" + key + "\": " + value)
  }

  function YesNo(b: bool): string {
    if b then "true" else "false"
  }

  function OneZero(b: bool): string {
    if b then "1" else "0"
  }

  function Object(g: GateMetric, end: string): seq<string> {
    [ "    {",
      Field("      ", "gate", "\"" + g.gateName + "\","),
      Field("      ", "duration_ms", Print(g.durationMs) + ","),
      Field("      ", "timestamp", Print(g.timestamp) + ","),
      Field("      ", "passed", YesNo(g.passed)),
      "    }" + end ]
  }

  lemma EntryIsField(indent: string, key: string, value: string)
    ensures indent + Entry(key, value) == Field(indent, key, value)
  {
    var open := "\"" + key;
    assert "\": " == "\":" + " ";
    ConcatAssociates(open, "\":", " ");
    ConcatAssociates(Key(key), " ", value);
  }

  function Head(total: nat, now: nat): seq<string> {
    [ "{",
      Field("  ", "total_duration_ms", Print(total) + ","),
      Field("  ", "timestamp", Print(now) + ","),
      Field("  ", "gates", "[") ]
  }

  /** How long the first licence gate took, and whether that is under 45 seconds. */
  function Slo(took: nat): seq<string> {
    [ Field("  ", "slo_compliance", "{"),
      Field("    ", "license_gate_duration_ms", Print(took) + ","),
      Field("    ", "slo_target_ms", "45000,"),
      Field("    ", "compliant", YesNo(took < 45000)),
      "  }," ]
  }

  /** What is known of the dependencies, and a bit for each kind of gate. */
  ghost function SupplyChain(gates: seq<GateMetric>, audit: Audit): seq<string> {
    [ Field("  ", "supply_chain_metrics", "{"),
      Field("    ", "scm.deps.direct_nondev_total", Print(audit.directDependencies) + ","),
      Field("    ", "scm.deps.threshold_compliant", YesNo(audit.directDependencies <= 150) + ","),
      Field("    ", "scm.licenses.completeness",
            OneZero(Passes(gates, "License") && Passes(gates, "Third-Party License")) + ","),
      Field("    ", "scm.security.advisories_open_total", Print(audit.openAdvisories) + ","),
      Field("    ", "scm.gate.status.licenses", OneZero(Passes(gates, "License")) + ","),
      Field("    ", "scm.gate.status.security", OneZero(Passes(gates, "Security Advisory")) + ","),
      Field("    ", "scm.gate.status.dependencies", OneZero(Passes(gates, "Dependency Count")) + ","),
      Field("    ", "scm.licenses.unified_http_ok", OneZero(Passes(gates, "Duplicate Major"))),
      "  }" ]
  }

  /** Every gate has six lines, at its place. */
  ghost predicate Objects(ls: seq<string>, gates: seq<GateMetric>) {
    && |ls| == (if gates == [] then 1 else 6 * |gates|)
    && (gates == [] ==> ls[0] == "")
    && forall i: nat {:trigger gates[i]} :: i < |gates| ==>
         ls[6 * i..6 * i + 6] == Object(gates[i], if i < |gates| - 1 then "," else "")
  }

  lemma HeadSays(total: u64, now: u64)
    ensures HeadLines(total, now) == Head(total, now)
  {
    EntryIsField("  ", "total_duration_ms", Print(total) + ",");
    EntryIsField("  ", "timestamp", Print(now) + ",");
    EntryIsField("  ", "gates", "[");
  }

  lemma ObjectSays(g: GateMetric, end: string)
    ensures ObjectLines(g, end) == Object(g, end)
  {
    EntryIsField("      ", "gate", "\"" + g.gateName + "\",");
    EntryIsField("      ", "duration_ms", Print(g.durationMs) + ",");
    EntryIsField("      ", "timestamp", Print(g.timestamp) + ",");
    EntryIsField("      ", "passed", PrintBool(g.passed));
  }

  lemma SloSays(gates: seq<GateMetric>)
    ensures SloLines(gates) == Slo(LicenseDuration(gates))
  {
    var took := LicenseDuration(gates);
    EntryIsField("  ", "slo_compliance", "{");
    EntryIsField("    ", "license_gate_duration_ms", Print(took) + ",");
    EntryIsField("    ", "slo_target_ms", "45000,");
    EntryIsField("    ", "compliant", YesNo(took < 45000));
  }

  lemma AuditSays(gates: seq<GateMetric>, audit: Audit)
    ensures AuditLines(gates, audit) == SupplyChain(gates, audit)[..5]
  {
    PassedExactly(gates, "License");
    PassedExactly(gates, "Third-Party License");
    EntryIsField("  ", "supply_chain_metrics", "{");
    EntryIsField("    ", "scm.deps.direct_nondev_total", Print(audit.directDependencies) + ",");
    EntryIsField("    ", "scm.deps.threshold_compliant", YesNo(audit.directDependencies <= 150) + ",");
    EntryIsField("    ", "scm.licenses.completeness",
                 OneZero(Passes(gates, "License") && Passes(gates, "Third-Party License")) + ",");
    EntryIsField("    ", "scm.security.advisories_open_total", Print(audit.openAdvisories) + ",");
  }

  lemma StatusSays(gates: seq<GateMetric>, audit: Audit)
    ensures StatusLines(gates) == SupplyChain(gates, audit)[5..]
  {
    BitSays(gates, "scm.gate.status.licenses", "License", ",");
    BitSays(gates, "scm.gate.status.security", "Security Advisory", ",");
    BitSays(gates, "scm.gate.status.dependencies", "Dependency Count", ",");
    BitSays(gates, "scm.licenses.unified_http_ok", "Duplicate Major", "");
  }

  lemma BitSays(gates: seq<GateMetric>, key: string, part: string, end: string)
    ensures "    " + Entry(key, PrintBit(Passed(gates, part)) + end)
         == Field("    ", key, OneZero(Passes(gates, part)) + end)
    ensures "    " + Entry(key, PrintBit(Passed(gates, part)))
         == Field("    ", key, OneZero(Passes(gates, part)))
  {
    PassedExactly(gates, part);
    EntryIsField("    ", key, PrintBit(Passed(gates, part)) + end);
    EntryIsField("    ", key, PrintBit(Passed(gates, part)));
  }

  // ---- The whole file ----

  lemma {:induction false} ListedAt(gates: seq<GateMetric>, i: nat)
    ensures |ListedLines(gates)| == 6 * |gates|
    ensures i < |gates| ==> ListedLines(gates)[6 * i..6 * i + 6] == Object(gates[i], ",")
  {
    if gates != [] {
      var init, last := gates[..|gates| - 1], gates[|gates| - 1];
      ListedAt(init, i);
      ObjectSays(last, ",");
      assert ListedLines(gates) == ListedLines(init) + ListedObject(last);
    }
  }

  lemma GatesAt(gates: seq<GateMetric>, i: nat)
    requires i < |gates|
    ensures |GatesLines(gates)| == 6 * |gates|
    ensures GatesLines(gates)[6 * i..6 * i + 6] == Object(gates[i], if i < |gates| - 1 then "," else "")
  {
    var init := gates[..|gates| - 1];
    ListedAt(init, i);
    ObjectSays(gates[|gates| - 1], "");
  }

  lemma GatesSay(gates: seq<GateMetric>)
    ensures Objects(GatesLines(gates), gates)
  {
    forall i: nat | i < |gates|
      ensures |GatesLines(gates)| == 6 * |gates|
      ensures GatesLines(gates)[6 * i..6 * i + 6] == Object(gates[i], if i < |gates| - 1 then "," else "")
    {
      GatesAt(gates, i);
    }
    if gates != [] {
      GatesAt(gates, 0);
    }
  }

  /** The saved text, line by line: each gate in its place, how long the first licence gate took and
      whether that is under 45 seconds, and what is known of the dependencies and gates. */
  lemma FileSays(gates: seq<GateMetric>, total: u64, now: u64, audit: Audit)
    returns (middle: seq<string>, took: nat)
    ensures Objects(middle, gates) && LicenseTakes(gates, took)
    ensures FileText(gates, total, now, audit)
         == Unlines(Head(total, now) + middle + (["  ],"] + (Slo(took) + SupplyChain(gates, audit)))) + "}"
  {
    middle, took := GatesLines(gates), LicenseDuration(gates);
    HeadSays(total, now);
    GatesSay(gates);
    LicenseExactly(gates);
    SloSays(gates);
    AuditSays(gates, audit);
    StatusSays(gates, audit);
    var known := SupplyChain(gates, audit);
    assert known == known[..5] + known[5..];
  }
}
