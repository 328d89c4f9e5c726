/** Reading back what was saved. */
module GateRoundTrip {
  import opened Wrappers
  import opened Lists
  import opened Text
  import opened GateMetrics

  /** A name the reader can tell from the text around it. */
  predicate PlainName(s: string) {
    '"' !in s && '\n' !in s
  }

  // ---- Where a key can be found ----

  lemma AtChar(t: string, j: nat, pat: string, k: nat)
    requires At(t, j, pat) && k < |pat|
    ensures j + k < |t| && t[j + k] == pat[k]
  {
    assert t[j..j + |pat|][k] == t[j + k];
  }

  lemma NoBracket(t: string)
    requires '[' !in t
    ensures !Contains(t, Key("gates") + " [")
  {
    var pat := Key("gates") + " [";
    forall j: nat
      ensures !At(t, j, pat)
    {
      if At(t, j, pat) { AtChar(t, j, pat, |pat| - 1); }
    }
    NotFound(t, pat);
  }

  /** In an entry whose value has no quote, only its own key is found. */
  lemma OtherKey(key: string, value: string, other: string)
    requires '"' !in key && '"' !in value && '"' !in other
    requires other != key && other != "" && other[0] != ':'
    ensures !Contains(Entry(key, value), Key(other))
  {
    var t, pat := Entry(key, value), Key(other);
    assert t[0] == '"' && t[|key| + 1] == '"' && t[|key| + 2] == ':';
    forall i | 0 <= i < |t| && t[i] == '"'
      ensures i == 0 || i == |key| + 1
    {
    }
    assert |key| == |other| && (forall k :: 0 <= k < |key| ==> key[k] == other[k]) ==> key == other;
    forall j: nat
      ensures !At(t, j, pat)
    {
      if At(t, j, pat) {
        AtChar(t, j, pat, 0);
        AtChar(t, j, pat, 1);
        AtChar(t, j, pat, |other| + 1);
        if k :| 0 <= k < |key| && |key| == |other| && key[k] != other[k] {
          AtChar(t, j, pat, k + 1);
        }
      }
    }
    NotFound(t, pat);
  }

  lemma OwnKey(key: string, value: string)
    ensures Find(Entry(key, value), Key(key)) == Some(0)
    ensures Find(Entry(key, value), Key(key) + " ") == Some(0)
    ensures Entry(key, value)[|Key(key)| + 1..] == value
    ensures Entry(key, value)[0] == '"'
  {
    assert At(Entry(key, value), 0, Key(key));
    assert At(Entry(key, value), 0, Key(key) + " ");
    FoundAt(Entry(key, value), Key(key), 0);
    FoundAt(Entry(key, value), Key(key) + " ", 0);
  }

  lemma FirstChar(part: string, c: char, rest: string)
    requires c !in part
    ensures Find(part + [c] + rest, [c]) == Some(|part|)
  {
    var s := part + [c] + rest;
    forall j: nat | j < |part|
      ensures !At(s, j, [c])
    {
      assert s[j] == part[j];
      if At(s, j, [c]) { AtChar(s, j, [c], 0); }
    }
    assert s[|part|..|part| + 1] == [c];
    FoundAt(s, [c], |part|);
  }

  // ---- One object ----

  lemma GateLineHasNoGates(name: string)
    requires '"' !in name
    ensures !Contains(Entry("gate", "\"" + name + "\","), Key("gates") + " [")
  {
    var t, pat, n := Entry("gate", "\"" + name + "\","), Key("gates") + " [", |name|;
    assert t == "\"gate\": \"" + name + "\"," && pat == "\"gates\": [";
    assert |t| == n + 11 && t[0..9] == "\"gate\": \"" && t[9 + n] == '"' && t[10 + n] == ',';
    forall i | 9 <= i < 9 + n
      ensures t[i] != '"'
    {
      assert t[i] == name[i - 9];
    }
    forall j: nat
      ensures !At(t, j, pat)
    {
      if At(t, j, pat) {
        AtChar(t, j, pat, 0);
        AtChar(t, j, pat, 1);
        AtChar(t, j, pat, 6);
        AtChar(t, j, pat, 7);
      }
    }
    NotFound(t, pat);
  }

  /** A line that starts with a quote, inside an object, is a field. */
  lemma FieldLine(s: Reader, t: string)
    requires s.inGates && s.inGate && t != "" && t[0] == '"' && !Contains(t, Key("gates") + " [")
    ensures ReadLine(s, t) == ReadField(s, t)
  {
    assert "],"[0] == ']' && "{"[0] == '{' && "}"[0] == '}' && "},"[0] == '}';
  }

  lemma ReadGateBack(name: string, default: string)
    requires '"' !in name
    ensures ReadGate(Entry("gate", "\"" + name + "\","), default) == name
  {
    var t, head := Entry("gate", "\"" + name + "\","), Key("gate") + " \"";
    assert t == head + (name + ['"'] + ",");
    assert At(t, 0, head);
    FoundAt(t, head, 0);
    FirstChar(name, '"', ",");
    assert t[|Key("gate")| + 2..] == name + ['"'] + ",";
  }

  lemma ReadGateLine(s: Reader, name: string)
    requires s.inGates && s.inGate && '"' !in name
    ensures ReadLine(s, Entry("gate", "\"" + name + "\",")) == s.(gate := name)
  {
    GateLineHasNoGates(name);
    OwnKey("gate", "\"" + name + "\",");
    FieldLine(s, Entry("gate", "\"" + name + "\","));
    ReadGateBack(name, s.gate);
  }

  lemma DigitsArePlain(n: nat)
    ensures '"' !in Print(n) && '[' !in Print(n) && ',' !in Print(n)
    ensures PlainLine(Print(n))
  {
  }

  lemma ReadNumberBack(key: string, n: u64, default: u64)
    ensures ReadNumber(Entry(key, Print(n) + ","), key, default) == n
  {
    var t := Entry(key, Print(n) + ",");
    OwnKey(key, Print(n) + ",");
    DigitsArePlain(n);
    FirstChar(Print(n), ',', "");
    assert Print(n) + "," == Print(n) + [','] + "";
    ParseOfPrint(n);
  }

  lemma DurationField(s: Reader, t: string)
    requires !Contains(t, Key("gate")) && Contains(t, Key("duration_ms"))
    ensures ReadField(s, t) == s.(duration := ReadNumber(t, "duration_ms", s.duration))
  {
  }

  lemma ReadDurationLine(s: Reader, n: u64)
    requires s.inGates && s.inGate
    ensures ReadLine(s, Entry("duration_ms", Print(n) + ",")) == s.(duration := n)
  {
    var key, value := "duration_ms", Print(n) + ",";
    DigitsArePlain(n);
    NoBracket(Entry(key, value));
    OtherKey(key, value, "gate");
    OwnKey(key, value);
    FieldLine(s, Entry(key, value));
    DurationField(s, Entry(key, value));
    ReadNumberBack(key, n, s.duration);
  }

  lemma TimestampField(s: Reader, t: string)
    requires !Contains(t, Key("gate")) && !Contains(t, Key("duration_ms"))
    requires Contains(t, Key("timestamp"))
    ensures ReadField(s, t) == s.(timestamp := ReadNumber(t, "timestamp", s.timestamp))
  {
  }

  lemma ReadTimestampLine(s: Reader, n: u64)
    requires s.inGates && s.inGate
    ensures ReadLine(s, Entry("timestamp", Print(n) + ",")) == s.(timestamp := n)
  {
    var key, value := "timestamp", Print(n) + ",";
    DigitsArePlain(n);
    NoBracket(Entry(key, value));
    OtherKey(key, value, "gate");
    OtherKey(key, value, "duration_ms");
    OwnKey(key, value);
    FieldLine(s, Entry(key, value));
    TimestampField(s, Entry(key, value));
    ReadNumberBack(key, n, s.timestamp);
  }

  lemma PassedField(s: Reader, t: string)
    requires !Contains(t, Key("gate")) && !Contains(t, Key("duration_ms"))
    requires !Contains(t, Key("timestamp")) && Contains(t, Key("passed"))
    requires Find(t, Key("passed") + " ") == Some(0)
    ensures ReadField(s, t) == s.(passed := "true" <= t[|Key("passed")| + 1..])
  {
  }

  lemma PrintedBool(b: bool)
    ensures '"' !in PrintBool(b) && '[' !in PrintBool(b) && PlainLine(PrintBool(b))
    ensures "true" <= PrintBool(b) <==> b
  {
    assert "true"[0] == 't' && "false"[0] == 'f';
  }

  lemma ReadPassedLine(s: Reader, b: bool)
    requires s.inGates && s.inGate
    ensures ReadLine(s, Entry("passed", PrintBool(b))) == s.(passed := b)
  {
    var key, value := "passed", PrintBool(b);
    PrintedBool(b);
    NoBracket(Entry(key, value));
    OtherKey(key, value, "gate");
    OtherKey(key, value, "duration_ms");
    OtherKey(key, value, "timestamp");
    OwnKey(key, value);
    FieldLine(s, Entry(key, value));
    PassedField(s, Entry(key, value));
  }

  /** A line that holds no key. */
  lemma NoKeys(t: string)
    requires '"' !in t
    ensures !Contains(t, Key("gates") + " [") && !Contains(t, Key("gate"))
    ensures !Contains(t, Key("duration_ms")) && !Contains(t, Key("timestamp"))
    ensures !Contains(t, Key("passed"))
  {
    NoQuotedKey(t, Key("gates") + " [");
    NoQuotedKey(t, Key("gate"));
    NoQuotedKey(t, Key("duration_ms"));
    NoQuotedKey(t, Key("timestamp"));
    NoQuotedKey(t, Key("passed"));
  }

  lemma NoQuotedKey(t: string, pat: string)
    requires '"' !in t && pat != "" && pat[0] == '"'
    ensures !Contains(t, pat)
  {
    forall j: nat
      ensures !At(t, j, pat)
    {
      if At(t, j, pat) { AtChar(t, j, pat, 0); }
    }
    NotFound(t, pat);
  }

  lemma ReadOpenLine(s: Reader)
    requires s.inGates
    ensures ReadLine(s, "{") == s.(inGate := true)
  {
    NoKeys("{");
  }

  lemma ReadCloseLine(s: Reader, end: string)
    requires s.inGates && s.inGate && (end == "" || end == ",")
    ensures ReadLine(s, "}" + end) == Close(s)
  {
    NoKeys("}" + end);
    assert "}" + "" == "}" && "}" + "," == "},";
    assert "}" != "]," && "}," != "],";
  }

  // ---- The lines as they are printed ----

  lemma EntryIsInked(indent: string, key: string, value: string)
    requires value != "" && !IsWhitespace(value[|value| - 1])
    requires forall i :: 0 <= i < |indent| ==> indent[i] == ' '
    ensures Trim(indent + Entry(key, value)) == Entry(key, value)
  {
    var t := Entry(key, value);
    assert t[0] == '"' && t[|t| - 1] == value[|value| - 1];
    TrimIndented(indent, t);
  }

  /** The reader between two objects. */
  predicate Between(s: Reader) {
    s == Reader(true, false, "", 0, 0, false, s.metrics)
  }

  /** The lines `o` take the reader through `states`. */
  lemma {:induction false} ReadThrough(s: Reader, ls: seq<string>, o: seq<string>, states: seq<Reader>)
    requires |states| == |o| + 1 && states[0] == ReadLines(s, ls)
    requires forall i :: 0 <= i < |o| ==> ReadLine(states[i], Trim(o[i])) == states[i + 1]
    ensures ReadLines(s, ls + o) == states[|o|]
  {
    if o == [] {
      assert ls + o == ls;
    } else {
      var init := o[..|o| - 1];
      ReadThrough(s, ls, init, states[..|o|]);
      assert (ls + o)[..|ls + o| - 1] == ls + init;
    }
  }

  /** The states of the reader in an object. */
  function ObjectStates(a: Reader, g: GateMetric): seq<Reader> {
    var b := a.(inGate := true);
    var c := b.(gate := g.gateName);
    var d := c.(duration := g.durationMs);
    var e := d.(timestamp := g.timestamp);
    var f := e.(passed := g.passed);
    [a, b, c, d, e, f, Close(f)]
  }

  lemma ReadObject(s: Reader, ls: seq<string>, g: GateMetric, end: string)
    requires Between(ReadLines(s, ls)) && PlainName(g.gateName) && (end == "" || end == ",")
    ensures var r := ReadLines(s, ls + ObjectLines(g, end));
      Between(r) && r.metrics == ReadLines(s, ls).metrics + [g]
  {
    var a := ReadLines(s, ls);
    var o, states := ObjectLines(g, end), ObjectStates(a, g);
    ObjectSteps(a, g, end);
    ReadThrough(s, ls, o, states);
  }

  lemma ObjectSteps(a: Reader, g: GateMetric, end: string)
    requires a.inGates && PlainName(g.gateName) && (end == "" || end == ",")
    ensures var o, states := ObjectLines(g, end), ObjectStates(a, g);
      forall i :: 0 <= i < 6 ==> ReadLine(states[i], Trim(o[i])) == states[i + 1]
  {
    var states := ObjectStates(a, g);
    TrimObject(g, end);
    ReadOpenLine(states[0]);
    ReadGateLine(states[1], g.gateName);
    ReadDurationLine(states[2], g.durationMs);
    ReadTimestampLine(states[3], g.timestamp);
    ReadPassedLine(states[4], g.passed);
    ReadCloseLine(states[5], end);
  }

  lemma TrimObject(g: GateMetric, end: string)
    requires end == "" || end == ","
    ensures var o := ObjectLines(g, end);
      && Trim(o[0]) == "{" && Trim(o[5]) == "}" + end
      && Trim(o[1]) == Entry("gate", "\"" + g.gateName + "\",")
      && Trim(o[2]) == Entry("duration_ms", Print(g.durationMs) + ",")
      && Trim(o[3]) == Entry("timestamp", Print(g.timestamp) + ",")
      && Trim(o[4]) == Entry("passed", PrintBool(g.passed))
  {
    assert "    {" == "    " + "{" && "    }" + end == "    " + ("}" + end);
    TrimIndented("    ", "{");
    TrimIndented("    ", "}" + end);
    EntryIsInked("      ", "gate", "\"" + g.gateName + "\",");
    EntryIsInked("      ", "duration_ms", Print(g.durationMs) + ",");
    EntryIsInked("      ", "timestamp", Print(g.timestamp) + ",");
    EntryIsInked("      ", "passed", PrintBool(g.passed));
  }

  /** The lines take the reader over one more gate. */
  ghost predicate ReadsGate(o: seq<string>, g: GateMetric) {
    forall s: Reader, ls: seq<string> :: Between(ReadLines(s, ls)) ==>
      Between(ReadLines(s, ls + o)) && ReadLines(s, ls + o).metrics == ReadLines(s, ls).metrics + [g]
  }

  lemma {:induction false} ReadCollected(
      lines: GateMetric -> seq<string>, s: Reader, ls: seq<string>, gates: seq<GateMetric>)
    requires Between(ReadLines(s, ls)) && forall g :: g in gates ==> ReadsGate(lines(g), g)
    ensures Between(ReadLines(s, ls + Collect(lines, gates)))
    ensures ReadLines(s, ls + Collect(lines, gates)).metrics == ReadLines(s, ls).metrics + gates
  {
    if gates == [] {
      assert ls + [] == ls;
    } else {
      var init, last := gates[..|gates| - 1], gates[|gates| - 1];
      ReadCollected(lines, s, ls, init);
      ConcatAssociates(ls, Collect(lines, init), lines(last));
      ConcatAssociates(ReadLines(s, ls).metrics, init, [last]);
      assert ReadsGate(lines(last), last) && gates == init + [last];
    }
  }

  lemma ListedObjectReads(g: GateMetric)
    requires PlainName(g.gateName)
    ensures ReadsGate(ListedObject(g), g)
  {
    forall s: Reader, ls: seq<string> | Between(ReadLines(s, ls))
      ensures Between(ReadLines(s, ls + ListedObject(g)))
      ensures ReadLines(s, ls + ListedObject(g)).metrics == ReadLines(s, ls).metrics + [g]
    {
      ReadObject(s, ls, g, ",");
    }
  }

  lemma ReadListed(s: Reader, ls: seq<string>, gates: seq<GateMetric>)
    requires Between(ReadLines(s, ls)) && forall g :: g in gates ==> PlainName(g.gateName)
    ensures Between(ReadLines(s, ls + ListedLines(gates)))
    ensures ReadLines(s, ls + ListedLines(gates)).metrics == ReadLines(s, ls).metrics + gates
  {
    forall g | g in gates
      ensures ReadsGate(ListedObject(g), g)
    {
      ListedObjectReads(g);
    }
    ReadCollected(ListedObject, s, ls, gates);
  }

  // ---- The rest of the file ----

  /** Lines that neither start nor end anything. */
  predicate Calm(l: string) {
    PlainLine(l) && '[' !in l
  }

  predicate CalmAll(ls: seq<string>) {
    forall i :: 0 <= i < |ls| ==> Calm(ls[i])
  }

  lemma {:induction false} CalmLines(s: Reader, ls: seq<string>, more: seq<string>)
    requires !ReadLines(s, ls).inGates && !ReadLines(s, ls).inGate
    requires CalmAll(more)
    ensures ReadLines(s, ls + more) == ReadLines(s, ls)
  {
    if more == [] {
      assert ls + more == ls;
    } else {
      var init, l := more[..|more| - 1], more[|more| - 1];
      CalmLines(s, ls, init);
      assert (ls + more)[..|ls + more| - 1] == ls + init;
      TrimKeeps(l, '[');
      NoBracket(Trim(l));
    }
  }

  lemma CalmEntry(indent: string, key: string, value: string)
    requires Calm(key) && Calm(value) && value != "" && Calm(indent)
    ensures Calm(indent + Entry(key, value))
  {
    var l := indent + Entry(key, value);
    assert l[|l| - 1] == value[|value| - 1];
  }

  lemma CalmValues(n: nat, b: bool)
    ensures Calm(Print(n)) && Calm(Print(n) + ",")
    ensures Calm(PrintBool(b)) && Calm(PrintBool(b) + ",")
    ensures Calm(PrintBit(b)) && Calm(PrintBit(b) + ",")
  {
    DigitsArePlain(n);
    PrintedBool(b);
  }

  lemma CalmFive(a: string, b: string, c: string, d: string, e: string)
    requires Calm(a) && Calm(b) && Calm(c) && Calm(d) && Calm(e)
    ensures CalmAll([a, b, c, d, e])
  {
  }

  lemma NumberIsCalm(key: string, n: nat)
    requires Calm(key)
    ensures Calm("    " + Entry(key, Print(n) + ","))
  {
    CalmValues(n, true);
    CalmEntry("    ", key, Print(n) + ",");
  }

  lemma FlagIsCalm(key: string, b: bool)
    requires Calm(key)
    ensures Calm("    " + Entry(key, PrintBool(b) + ","))
    ensures Calm("    " + Entry(key, PrintBit(b) + ",")) && Calm("    " + Entry(key, PrintBit(b)))
  {
    CalmValues(0, b);
    CalmEntry("    ", key, PrintBool(b) + ",");
    CalmEntry("    ", key, PrintBit(b) + ",");
    CalmEntry("    ", key, PrintBit(b));
  }

  lemma SloHeadIsCalm()
    ensures Calm("  " + Entry("slo_compliance", "{"))
    ensures Calm("    " + Entry("slo_target_ms", "45000,"))
  {
    CalmEntry("  ", "slo_compliance", "{");
    CalmEntry("    ", "slo_target_ms", "45000,");
  }

  lemma SloDurationIsCalm(n: nat)
    ensures Calm("    " + Entry("license_gate_duration_ms", Print(n) + ","))
  {
    NumberIsCalm("license_gate_duration_ms", n);
  }

  lemma SloFlagIsCalm(b: bool)
    ensures Calm("    " + Entry("compliant", PrintBool(b)))
  {
    CalmValues(0, b);
    CalmEntry("    ", "compliant", PrintBool(b));
  }

  lemma SloIsCalm(gates: seq<GateMetric>)
    ensures CalmAll(SloLines(gates))
  {
    var n := LicenseDuration(gates);
    SloHeadIsCalm();
    SloDurationIsCalm(n);
    SloFlagIsCalm(n < 45000);
    CalmFive(SloLines(gates)[0], SloLines(gates)[1], SloLines(gates)[2], SloLines(gates)[3], "  },");
  }

  lemma AuditHeadIsCalm()
    ensures Calm("  " + Entry("supply_chain_metrics", "{"))
  {
    CalmEntry("  ", "supply_chain_metrics", "{");
  }

  lemma DependenciesAreCalm(n: nat)
    ensures Calm("    " + Entry("scm.deps.direct_nondev_total", Print(n) + ","))
    ensures Calm("    " + Entry("scm.deps.threshold_compliant", PrintBool(n <= 150) + ","))
  {
    NumberIsCalm("scm.deps.direct_nondev_total", n);
    FlagIsCalm("scm.deps.threshold_compliant", n <= 150);
  }

  lemma CompletenessIsCalm(b: bool)
    ensures Calm("    " + Entry("scm.licenses.completeness", PrintBit(b) + ","))
  {
    FlagIsCalm("scm.licenses.completeness", b);
  }

  lemma AdvisoriesAreCalm(n: nat)
    ensures Calm("    " + Entry("scm.security.advisories_open_total", Print(n) + ","))
  {
    NumberIsCalm("scm.security.advisories_open_total", n);
  }

  lemma AuditIsCalm(gates: seq<GateMetric>, audit: Audit)
    ensures CalmAll(AuditLines(gates, audit))
  {
    var ls := AuditLines(gates, audit);
    AuditHeadIsCalm();
    DependenciesAreCalm(audit.directDependencies);
    CompletenessIsCalm(Passed(gates, "License") && Passed(gates, "Third-Party License"));
    AdvisoriesAreCalm(audit.openAdvisories);
    CalmFive(ls[0], ls[1], ls[2], ls[3], ls[4]);
  }

  lemma LicensesAndSecurityAreCalm(a: bool, b: bool)
    ensures Calm("    " + Entry("scm.gate.status.licenses", PrintBit(a) + ","))
    ensures Calm("    " + Entry("scm.gate.status.security", PrintBit(b) + ","))
  {
    FlagIsCalm("scm.gate.status.licenses", a);
    FlagIsCalm("scm.gate.status.security", b);
  }

  lemma DependencyFlagIsCalm(b: bool)
    ensures Calm("    " + Entry("scm.gate.status.dependencies", PrintBit(b) + ","))
  {
    FlagIsCalm("scm.gate.status.dependencies", b);
  }

  lemma HttpFlagIsCalm(b: bool)
    ensures Calm("    " + Entry("scm.licenses.unified_http_ok", PrintBit(b)))
  {
    FlagIsCalm("scm.licenses.unified_http_ok", b);
  }

  lemma StatusIsCalm(gates: seq<GateMetric>)
    ensures CalmAll(StatusLines(gates))
  {
    var ls := StatusLines(gates);
    LicensesAndSecurityAreCalm(Passed(gates, "License"), Passed(gates, "Security Advisory"));
    DependencyFlagIsCalm(Passed(gates, "Dependency Count"));
    HttpFlagIsCalm(Passed(gates, "Duplicate Major"));
    CalmFive(ls[0], ls[1], ls[2], ls[3], "  }");
  }

  lemma CalmAppend(a: seq<string>, b: seq<string>)
    requires CalmAll(a) && CalmAll(b)
    ensures CalmAll(a + b)
  {
  }

  lemma TailIsCalm(gates: seq<GateMetric>, audit: Audit)
    ensures CalmAll(SloLines(gates) + (AuditLines(gates, audit) + StatusLines(gates)))
  {
    SloIsCalm(gates);
    AuditIsCalm(gates, audit);
    StatusIsCalm(gates);
    CalmAppend(AuditLines(gates, audit), StatusLines(gates));
    CalmAppend(SloLines(gates), AuditLines(gates, audit) + StatusLines(gates));
  }

  lemma HeadIsCalm(total: u64, now: u64)
    ensures CalmAll(HeadLines(total, now)[..3])
  {
    CalmValues(total, true);
    CalmValues(now, true);
    CalmEntry("  ", "total_duration_ms", Print(total) + ",");
    CalmEntry("  ", "timestamp", Print(now) + ",");
    assert Calm("{");
  }

  lemma ReadStart(s: Reader, ls: seq<string>)
    ensures ReadLines(s, ls + ["  " + Entry("gates", "[")]) == ReadLines(s, ls).(inGates := true)
  {
    EntryIsInked("  ", "gates", "[");
    assert Entry("gates", "[") == Key("gates") + " [";
    FoundAt(Entry("gates", "["), Key("gates") + " [", 0);
    ReadOne(s, ls, "  " + Entry("gates", "["), Entry("gates", "["));
  }

  lemma ReadHead(total: u64, now: u64)
    ensures ReadLines(START, HeadLines(total, now)) == START.(inGates := true)
  {
    var calm := HeadLines(total, now)[..3];
    HeadIsCalm(total, now);
    CalmLines(START, [], calm);
    assert [] + calm == calm;
    ReadStart(START, calm);
    assert HeadLines(total, now) == calm + ["  " + Entry("gates", "[")];
  }

  lemma ReadOne(s: Reader, ls: seq<string>, l: string, t: string)
    requires Trim(l) == t
    ensures ReadLines(s, ls + [l]) == ReadLine(ReadLines(s, ls), t)
  {
    assert (ls + [l])[..|ls|] == ls;
  }

  lemma ReadNoGates(s: Reader, ls: seq<string>)
    requires Between(ReadLines(s, ls))
    ensures ReadLines(s, ls + [""]) == ReadLines(s, ls)
  {
    ReadOne(s, ls, "", "");
    NoKeys("");
  }

  /** The last object has no comma. */
  lemma ReadSomeGates(s: Reader, ls: seq<string>, init: seq<GateMetric>, last: GateMetric)
    requires Between(ReadLines(s, ls)) && PlainName(last.gateName)
    requires forall g :: g in init ==> PlainName(g.gateName)
    ensures var r := ReadLines(s, ls + (ListedLines(init) + ObjectLines(last, "")));
      Between(r) && r.metrics == ReadLines(s, ls).metrics + init + [last]
  {
    ReadListed(s, ls, init);
    ReadObject(s, ls + ListedLines(init), last, "");
    ConcatAssociates(ls, ListedLines(init), ObjectLines(last, ""));
  }

  lemma ReadGates(s: Reader, ls: seq<string>, gates: seq<GateMetric>)
    requires Between(ReadLines(s, ls)) && forall g :: g in gates ==> PlainName(g.gateName)
    ensures var r := ReadLines(s, ls + GatesLines(gates));
      Between(r) && r.metrics == ReadLines(s, ls).metrics + gates
  {
    if gates == [] {
      ReadNoGates(s, ls);
    } else {
      var init, last := gates[..|gates| - 1], gates[|gates| - 1];
      ReadSomeGates(s, ls, init, last);
      ConcatAssociates(ReadLines(s, ls).metrics, init, [last]);
      assert gates == init + [last];
    }
  }

  lemma ReadEnd(s: Reader, ls: seq<string>)
    requires Between(ReadLines(s, ls))
    ensures ReadLines(s, ls + ["  ],"]) == ReadLines(s, ls).(inGates := false)
  {
    TrimIndented("  ", "],");
    assert "  " + "]," == "  ],";
    ReadOne(s, ls, "  ],", "],");
    NoKeys("],");
  }

  lemma ReadTail(s: Reader, ls: seq<string>, gates: seq<GateMetric>, audit: Audit)
    requires Between(ReadLines(s, ls))
    ensures ReadLines(s, ls + TailLines(gates, audit) + ["}"]).metrics == ReadLines(s, ls).metrics
  {
    var rest := SloLines(gates) + (AuditLines(gates, audit) + StatusLines(gates));
    ReadEnd(s, ls);
    TailIsCalm(gates, audit);
    assert CalmAll(["}"]);
    CalmLines(s, ls + ["  ],"], rest);
    CalmLines(s, ls + ["  ],"] + rest, ["}"]);
    ConcatAssociates(ls, ["  ],"], rest);
  }

  // ---- Plain lines ----

  lemma NameIsPlain(name: string)
    requires PlainName(name)
    ensures PlainLine("      " + Entry("gate", "\"" + name + "\","))
  {
    assert "      " + Entry("gate", "\"" + name + "\",") == "      \"gate\": \"" + name + "\",";
  }

  lemma ValuesArePlain(g: GateMetric)
    ensures PlainLine(ObjectLines(g, "")[2]) && PlainLine(ObjectLines(g, "")[3])
    ensures PlainLine(ObjectLines(g, "")[4])
  {
    CalmValues(g.durationMs, g.passed);
    CalmValues(g.timestamp, g.passed);
    CalmEntry("      ", "duration_ms", Print(g.durationMs) + ",");
    CalmEntry("      ", "timestamp", Print(g.timestamp) + ",");
    CalmEntry("      ", "passed", PrintBool(g.passed));
  }

  lemma ObjectIsPlain(g: GateMetric, end: string)
    requires PlainName(g.gateName) && (end == "" || end == ",")
    ensures forall i :: 0 <= i < 6 ==> PlainLine(ObjectLines(g, end)[i])
  {
    var o := ObjectLines(g, end);
    NameIsPlain(g.gateName);
    ValuesArePlain(g);
    assert PlainLine(o[0]) && PlainLine(o[5]);
  }

  predicate PlainAll(ls: seq<string>) {
    forall i :: 0 <= i < |ls| ==> PlainLine(ls[i])
  }

  lemma {:induction false} CollectedIsPlain(lines: GateMetric -> seq<string>, gates: seq<GateMetric>)
    requires forall g :: g in gates ==> PlainAll(lines(g))
    ensures PlainAll(Collect(lines, gates))
  {
    if gates != [] {
      CollectedIsPlain(lines, gates[..|gates| - 1]);
      assert PlainAll(lines(gates[|gates| - 1]));
    }
  }

  lemma ListedIsPlain(gates: seq<GateMetric>)
    requires forall g :: g in gates ==> PlainName(g.gateName)
    ensures PlainAll(ListedLines(gates))
  {
    forall g | g in gates
      ensures PlainAll(ListedObject(g))
    {
      ObjectIsPlain(g, ",");
    }
    CollectedIsPlain(ListedObject, gates);
  }

  lemma GatesArePlain(gates: seq<GateMetric>)
    requires forall g :: g in gates ==> PlainName(g.gateName)
    ensures PlainAll(GatesLines(gates))
  {
    if gates != [] {
      ListedIsPlain(gates[..|gates| - 1]);
      ObjectIsPlain(gates[|gates| - 1], "");
    }
  }

  lemma TailIsPlain(gates: seq<GateMetric>, audit: Audit)
    ensures PlainAll(TailLines(gates, audit))
  {
    TailIsCalm(gates, audit);
    assert PlainLine("  ],");
  }

  lemma FileIsPlain(gates: seq<GateMetric>, total: u64, now: u64, audit: Audit)
    requires forall g :: g in gates ==> PlainName(g.gateName)
    ensures forall l :: l in FileLines(gates, total, now, audit) ==> PlainLine(l)
  {
    HeadIsPlain(total, now);
    GatesArePlain(gates);
    TailIsPlain(gates, audit);
    PlainAppend(HeadLines(total, now), GatesLines(gates));
    PlainAppend(HeadLines(total, now) + GatesLines(gates), TailLines(gates, audit));
  }

  lemma PlainAppend(a: seq<string>, b: seq<string>)
    requires PlainAll(a) && PlainAll(b)
    ensures PlainAll(a + b)
  {
  }

  lemma HeadIsPlain(total: u64, now: u64)
    ensures forall i :: 0 <= i < 4 ==> PlainLine(HeadLines(total, now)[i])
  {
    var ls := HeadLines(total, now);
    HeadIsCalm(total, now);
    assert forall i :: 0 <= i < 3 ==> ls[i] == ls[..3][i];
    assert ls[3] == "  \"gates\": [";
  }

  /** What the reader gets from the text that the collector saves. */
  function ReadBack(gates: seq<GateMetric>, total: u64, now: u64, audit: Audit): seq<GateMetric> {
    ReadLines(START, Lines(FileText(gates, total, now, audit))).metrics
  }

  lemma PlainNamesReadBack(gates: seq<GateMetric>, total: u64, now: u64, audit: Audit)
    requires forall g :: g in gates ==> PlainName(g.gateName)
    ensures ReadBack(gates, total, now, audit) == gates
  {
    var head, body := HeadLines(total, now), GatesLines(gates);
    FileIsPlain(gates, total, now, audit);
    LinesOfUnlines(FileLines(gates, total, now, audit), "}");
    ReadHead(total, now);
    ReadGates(START, head, gates);
    ReadTail(START, head + body, gates, audit);
  }

  // ---- Names that are not plain ----

  predicate PlainReader(s: Reader) {
    PlainName(s.gate) && forall i :: 0 <= i < |s.metrics| ==> PlainName(s.metrics[i].gateName)
  }

  lemma ReadGateIsPlain(t: string, default: string)
    requires OneLine(t) && PlainName(default)
    ensures PlainName(ReadGate(t, default))
  {
    match Find(t, Key("gate") + " \"")
    case None =>
    case Some(start) =>
      var part := t[start + |Key("gate")| + 2..];
      FindIsFirst(part, "\"");
      match Find(part, "\"") {
        case None =>
        case Some(end) =>
          forall j | 0 <= j < end
            ensures part[..end][j] != '"'
          {
            assert !At(part, j, "\"");
            assert part[j..j + 1] == [part[j]];
          }
      }
  }

  lemma ReadFieldIsPlain(s: Reader, t: string)
    requires PlainReader(s) && OneLine(t)
    ensures PlainReader(ReadField(s, t))
  {
    ReadGateIsPlain(t, s.gate);
  }

  lemma ReadLineIsPlain(s: Reader, t: string)
    requires PlainReader(s) && OneLine(t)
    ensures PlainReader(ReadLine(s, t))
  {
    ReadFieldIsPlain(s, t);
  }

  lemma {:induction false} ReadLinesArePlain(s: Reader, ls: seq<string>)
    requires PlainReader(s) && forall i :: 0 <= i < |ls| ==> OneLine(ls[i])
    ensures PlainReader(ReadLines(s, ls))
  {
    if ls != [] {
      ReadLinesArePlain(s, ls[..|ls| - 1]);
      TrimKeeps(ls[|ls| - 1], '\n');
      ReadLineIsPlain(ReadLines(s, ls[..|ls| - 1]), Trim(ls[|ls| - 1]));
    }
  }

  /** The reader returns exactly what was recorded, in order, with every duration, timestamp and
      flag, if and only if no name has a quote or a line break. */
  lemma RoundTripExactlyWhen(gates: seq<GateMetric>, total: u64, now: u64, audit: Audit)
    ensures ReadBack(gates, total, now, audit) == gates
       <==> forall g :: g in gates ==> PlainName(g.gateName)
  {
    var text := FileText(gates, total, now, audit);
    if forall g :: g in gates ==> PlainName(g.gateName) {
      PlainNamesReadBack(gates, total, now, audit);
    } else {
      LinesAreOneLine(text);
      ReadLinesArePlain(START, Lines(text));
    }
  }
}
