/** The Consul DNS names (internal/consuldns): parsing query names, and the SRV targets the
    same server prints. Names are ASCII. */
module DnsName {
  import opened Model
  import opened Text

  // ---- parsing ----

  datatype ParsedQuery =
    | Unknown
    | Service(service: string, tag: string, datacenter: string)
    | NodeName(node: string, datacenter: string)

  const MESH: set<string> := {"connect", "virtual", "ingress", "ns", "ap", "peer", "query", "addr"}

  /** [<dc> dc] is canonical, [<dc>] is legacy, anything else names no datacenter. */
  function DcFromRest(rest: seq<string>): string {
    if |rest| == 2 && rest[1] == "dc" then rest[0]
    else if |rest| == 1 then rest[0]
    else ""
  }

  function ParseServicePrefix(before: seq<string>, dc: string): ParsedQuery {
    if |before| == 1 then Service(before[0], "", dc)
    else if |before| == 2 then Service(before[1], before[0], dc)
    else Unknown
  }

  /** Scans for the first keyword at or after label `i`. */
  function Scan(labels: seq<string>, i: nat): ParsedQuery
    requires i <= |labels|
    decreases |labels| - i
  {
    if i == |labels| then Unknown
    else if labels[i] == "service" then ParseServicePrefix(labels[..i], DcFromRest(labels[i + 1..]))
    else if labels[i] == "node" then
      if i == 0 then Unknown else NodeName(Join(labels[..i], '.'), DcFromRest(labels[i + 1..]))
    else if labels[i] in MESH then Unknown
    else Scan(labels, i + 1)
  }

  predicate IsSrvForm(labels: seq<string>) {
    |labels| >= 2 && Underscored(labels[0]) && Underscored(labels[1])
  }

  function ParseLabels(labels: seq<string>): ParsedQuery {
    if IsSrvForm(labels) then
      var rest := labels[2..];
      var rest' := if |rest| > 0 && rest[0] == "service" then rest[1..] else rest;
      Service(TrimUnderscore(labels[0]), TrimUnderscore(labels[1]), DcFromRest(rest'))
    else Scan(labels, 0)
  }

  /** Without the root dot, in lower case. */
  function Normal(s: string): string {
    ToLower(TrimSuffix(s, "."))
  }

  /** Parses a normalized name within a normalized domain. */
  function ParseWithin(n: string, d: string): ParsedQuery {
    if n != d && !HasSuffix(n, "." + d) then Unknown
    else
      var prefix := TrimSuffix(TrimSuffix(n, d), ".");
      if prefix == "" then Unknown else ParseLabels(Split(prefix, '.'))
  }

  function ParseName(name: string, domain: string): ParsedQuery {
    ParseWithin(Normal(name), Normal(domain))
  }

  // ---- the supported forms, spelled out ----

  datatype Dc = NoDc | Legacy(dc: string) | Canonical(dc: string)

  function DcLabels(d: Dc): seq<string> {
    match d
    case NoDc => []
    case Legacy(dc) => [dc]
    case Canonical(dc) => [dc, "dc"]
  }

  function DcName(d: Dc): string {
    if d.NoDc? then "" else d.dc
  }

  datatype Form =
    | Plain(service: string, dc: Dc)                                       // web.service
    | Tagged(tag: string, service: string, dc: Dc)                         // v1.web.service
    | Srv(service: string, proto: string, keyword: bool, dc: Dc)           // _web._tcp[.service]
    | OfNode(labels: seq<string>, dc: Dc)                                  // n1.rack2.node

  function Labels(f: Form): seq<string> {
    match f
    case Plain(s, d) => [s, "service"] + DcLabels(d)
    case Tagged(t, s, d) => [t, s, "service"] + DcLabels(d)
    case Srv(s, p, keyword, d) => ["_" + s, "_" + p] + (if keyword then ["service"] else []) + DcLabels(d)
    case OfNode(ls, d) => ls + ["node"] + DcLabels(d)
  }

  function Meaning(f: Form): ParsedQuery {
    match f
    case Plain(s, d) => Service(s, "", DcName(d))
    case Tagged(t, s, d) => Service(s, t, DcName(d))
    case Srv(s, p, _, d) => Service(s, p, DcName(d))
    case OfNode(ls, d) => NodeName(Join(ls, '.'), DcName(d))
  }

  predicate Reserved(l: string) {
    l == "service" || l == "node" || l in MESH
  }

  /** A lower-case label without dots. */
  predicate Label(l: string) {
    '.' !in l && ToLower(l) == l
  }

  /** Labels avoid the reserved words; a tag and its service (or the first two labels of a
      node) are not both underscored; and a bare SRV name is not followed by a datacenter
      called "service". */
  predicate WellFormed(f: Form) {
    && (f.dc.NoDc? || Label(f.dc.dc))
    && match f
       case Plain(s, _) => Label(s) && !Reserved(s)
       case Tagged(t, s, _) =>
         Label(t) && Label(s) && !Reserved(t) && !Reserved(s) && !(Underscored(t) && Underscored(s))
       case Srv(s, p, keyword, d) => Label(s) && Label(p) && (keyword || DcName(d) != "service")
       case OfNode(ls, _) => ls != [] && !IsSrvForm(ls) && forall i | 0 <= i < |ls| :: Label(ls[i]) && !Reserved(ls[i])
  }

  predicate Zone(z: string) {
    z != "" && z[|z| - 1] != '.'
  }

  /** With or without the root dot. */
  function Dotted(s: string, dotted: bool): string {
    if dotted then s + "." else s
  }

  lemma NormalDotted(s: string, dotted: bool)
    requires Zone(s)
    ensures Normal(Dotted(s, dotted)) == ToLower(s)
  {
    if dotted {
      TrimAppended(s, ".");
    }
  }

  lemma NormalUnder(prefix: string, zone: string, dotted: bool)
    requires Zone(zone)
    ensures Normal(Dotted(prefix + "." + zone, dotted)) == ToLower(prefix) + ("." + ToLower(zone))
  {
    var full := prefix + "." + zone;
    assert full[|full| - 1] == zone[|zone| - 1];
    NormalDotted(full, dotted);
    ToLowerConcat(prefix + ".", zone);
    ToLowerConcat(prefix, ".");
    assert ToLower(".") == ".";
  }

  lemma WithinPrefix(prefix: string, z: string)
    requires prefix != ""
    ensures ParseWithin(prefix + ("." + z), z) == ParseLabels(Split(prefix, '.'))
  {
    assert prefix + ("." + z) == prefix + "." + z;
    TrimAppended(prefix, "." + z);
    TrimAppended(prefix + ".", z);
    TrimAppended(prefix, ".");
  }

  /** Zone and case are stripped exactly: what is left is parsed label by label. */
  lemma ParseUnder(prefix: string, zone: string, d1: bool, d2: bool)
    requires Zone(zone) && prefix != ""
    ensures ParseName(Dotted(prefix + "." + zone, d1), Dotted(zone, d2)) == ParseLabels(Split(ToLower(prefix), '.'))
  {
    NormalUnder(prefix, zone, d1);
    NormalDotted(zone, d2);
    WithinPrefix(ToLower(prefix), ToLower(zone));
  }

  lemma {:induction false} ScanTo(labels: seq<string>, i: nat, n: nat)
    requires i <= n < |labels| && (labels[n] == "service" || labels[n] == "node")
    requires forall j | i <= j < n :: !Reserved(labels[j])
    ensures Scan(labels, i) == Scan(labels, n)
    decreases n - i
  {
    if i < n {
      ScanTo(labels, i + 1, n);
    }
  }

  lemma DcParsed(d: Dc)
    ensures DcFromRest(DcLabels(d)) == DcName(d)
  {
  }

  lemma ParsePlain(s: string, d: Dc)
    requires WellFormed(Plain(s, d))
    ensures ParseLabels(Labels(Plain(s, d))) == Meaning(Plain(s, d))
  {
    var ls := Labels(Plain(s, d));
    DcParsed(d);
    ScanTo(ls, 0, 1);
    assert ls[..1] == [s] && ls[2..] == DcLabels(d);
  }

  lemma ParseTagged(t: string, s: string, d: Dc)
    requires WellFormed(Tagged(t, s, d))
    ensures ParseLabels(Labels(Tagged(t, s, d))) == Meaning(Tagged(t, s, d))
  {
    var ls := Labels(Tagged(t, s, d));
    DcParsed(d);
    ScanTo(ls, 0, 2);
    assert ls[..2] == [t, s] && ls[3..] == DcLabels(d);
  }

  lemma ParseSrv(s: string, p: string, keyword: bool, d: Dc)
    requires WellFormed(Srv(s, p, keyword, d))
    ensures ParseLabels(Labels(Srv(s, p, keyword, d))) == Meaning(Srv(s, p, keyword, d))
  {
    var ls := Labels(Srv(s, p, keyword, d));
    DcParsed(d);
    assert ls[2..] == (if keyword then ["service"] else []) + DcLabels(d);
    assert (["service"] + DcLabels(d))[1..] == DcLabels(d);
    assert [] + DcLabels(d) == DcLabels(d);
  }

  lemma ParseOfNode(ns: seq<string>, d: Dc)
    requires WellFormed(OfNode(ns, d))
    ensures ParseLabels(Labels(OfNode(ns, d))) == Meaning(OfNode(ns, d))
  {
    var ls := Labels(OfNode(ns, d));
    DcParsed(d);
    ScanTo(ls, 0, |ns|);
    assert ls[..|ns|] == ns && ls[|ns| + 1..] == DcLabels(d);
  }

  lemma ParseForm(f: Form)
    requires WellFormed(f)
    ensures ParseLabels(Labels(f)) == Meaning(f)
  {
    match f
    case Plain(s, d) => ParsePlain(s, d);
    case Tagged(t, s, d) => ParseTagged(t, s, d);
    case Srv(s, p, keyword, d) => ParseSrv(s, p, keyword, d);
    case OfNode(ns, d) => ParseOfNode(ns, d);
  }

  function LowerAll(parts: seq<string>): seq<string> {
    seq(|parts|, i requires 0 <= i < |parts| => ToLower(parts[i]))
  }

  lemma {:induction false} JoinLower(parts: seq<string>)
    ensures ToLower(Join(parts, '.')) == Join(LowerAll(parts), '.')
    decreases |parts|
  {
    if |parts| >= 2 {
      var tail := Join(parts[1..], '.');
      assert LowerAll(parts)[1..] == LowerAll(parts[1..]);
      JoinLower(parts[1..]);
      ToLowerConcat(parts[0] + ['.'], tail);
      ToLowerConcat(parts[0], ['.']);
    }
  }

  function LoweredDc(d: Dc): Dc {
    match d
    case NoDc => NoDc
    case Legacy(dc) => Legacy(ToLower(dc))
    case Canonical(dc) => Canonical(ToLower(dc))
  }

  /** The form in lower case. */
  function Lowered(f: Form): Form {
    match f
    case Plain(s, d) => Plain(ToLower(s), LoweredDc(d))
    case Tagged(t, s, d) => Tagged(ToLower(t), ToLower(s), LoweredDc(d))
    case Srv(s, p, keyword, d) => Srv(ToLower(s), ToLower(p), keyword, LoweredDc(d))
    case OfNode(ls, d) => OfNode(LowerAll(ls), LoweredDc(d))
  }

  lemma LowerConcat(a: seq<string>, b: seq<string>)
    ensures LowerAll(a + b) == LowerAll(a) + LowerAll(b)
  {
  }

  lemma DcLowered(d: Dc)
    ensures LowerAll(DcLabels(d)) == DcLabels(LoweredDc(d))
  {
    KeywordLabels();
  }

  lemma LabelsLowered(f: Form)
    ensures LowerAll(Labels(f)) == Labels(Lowered(f))
  {
    KeywordLabels();
    DcLowered(f.dc);
    match f
    case Plain(s, d) => LowerConcat([s, "service"], DcLabels(d));
    case Tagged(t, s, d) => LowerConcat([t, s, "service"], DcLabels(d));
    case Srv(s, p, keyword, d) =>
      ToLowerConcat("_", s);
      ToLowerConcat("_", p);
      var optional := if keyword then ["service"] else [];
      LowerConcat(["_" + s, "_" + p], optional);
      LowerConcat(["_" + s, "_" + p] + optional, DcLabels(d));
    case OfNode(ls, d) =>
      LowerConcat(ls, ["node"]);
      LowerConcat(ls + ["node"], DcLabels(d));
  }

  lemma LabelsPlain(f: Form)
    requires WellFormed(f)
    ensures Labels(f) != [] && AllLabels(Labels(f))
    ensures Join(Labels(f), '.') != ""
  {
    KeywordLabels();
    assert AllLabels(DcLabels(f.dc));
    if f.Srv? {
      ToLowerConcat("_", f.service);
      ToLowerConcat("_", f.proto);
    }
    assert |Labels(f)| >= 2;
  }

  predicate AllLabels(ls: seq<string>) {
    forall i | 0 <= i < |ls| :: Label(ls[i])
  }

  lemma KeywordLabels()
    ensures Label("service") && Label("node") && Label("dc") && ToLower("_") == "_"
  {
  }

  /** Name round trip: every form, under any zone, in any mix of case and root dots, parses to
      exactly what it says in lower case; the legacy and canonical datacenter spellings mean
      the same. */
  lemma NameRoundTrip(f: Form, zone: string, d1: bool, d2: bool)
    requires WellFormed(Lowered(f)) && Zone(zone)
    ensures ParseName(Dotted(Join(Labels(f), '.') + "." + zone, d1), Dotted(zone, d2)) == Meaning(Lowered(f))
  {
    LabelsLowered(f);
    JoinLower(Labels(f));
    LabelsPlain(Lowered(f));
    ParseUnder(Join(Labels(f), '.'), zone, d1, d2);
    SplitJoin(Labels(Lowered(f)), '.');
    ParseForm(Lowered(f));
  }

  // ---- every name, supported or not ----

  const SPECIAL: set<string> :=
    {"service", "node", "connect", "virtual", "ingress", "ns", "ap", "peer", "query", "addr"}

  /** The datacenter named by the labels after the keyword, empty when they name none. */
  predicate NamesDc(rest: seq<string>, dc: string) {
    if |rest| == 1 || (|rest| == 2 && rest[1] == "dc") then dc == rest[0] else dc == ""
  }

  /** What the first special label, at `i`, makes of the name: services have one label before
      the keyword, or two with a tag; nodes have at least one; the rest is refused. */
  predicate ReadAt(labels: seq<string>, i: nat, p: ParsedQuery)
    requires i < |labels|
  {
    if labels[i] == "service" && i == 1 then
      p.Service? && p.service == labels[0] && p.tag == "" && NamesDc(labels[2..], p.datacenter)
    else if labels[i] == "service" && i == 2 then
      p.Service? && p.service == labels[1] && p.tag == labels[0] && NamesDc(labels[3..], p.datacenter)
    else if labels[i] == "node" && i > 0 then
      p.NodeName? && Split(p.node, '.') == labels[..i] && NamesDc(labels[i + 1..], p.datacenter)
    else p == Unknown
  }

  lemma {:induction false} ScanReads(labels: seq<string>, from: nat, i: nat)
    requires from <= i < |labels| && labels[i] in SPECIAL && Free(labels, '.')
    requires forall j | from <= j < i :: labels[j] !in SPECIAL
    ensures ReadAt(labels, i, Scan(labels, from))
    decreases i - from
  {
    if from < i {
      ScanReads(labels, from + 1, i);
    } else if labels[i] == "node" && i > 0 {
      assert forall j | 0 <= j < i :: labels[..i][j] == labels[j];
      SplitJoin(labels[..i], '.');
    }
  }

  lemma {:induction false} ScanNothing(labels: seq<string>, from: nat)
    requires from <= |labels| && forall j | from <= j < |labels| :: labels[j] !in SPECIAL
    ensures Scan(labels, from) == Unknown
    decreases |labels| - from
  {
    if from < |labels| {
      ScanNothing(labels, from + 1);
    }
  }

  /** What any labels mean: two underscored ones in front are a service and a tag, with an
      optional keyword; otherwise the first special label decides, and without one the name is
      refused. */
  lemma LabelsMeaning(labels: seq<string>)
    requires Free(labels, '.')
    ensures var p := ParseLabels(labels);
            if |labels| >= 2 && labels[0] != "" && labels[0][0] == '_' && labels[1] != "" && labels[1][0] == '_' then
              && p.Service? && p.service == labels[0][1..] && p.tag == labels[1][1..]
              && NamesDc(if |labels| > 2 && labels[2] == "service" then labels[3..] else labels[2..], p.datacenter)
            else
              && (forall i | 0 <= i < |labels| && labels[i] in SPECIAL
                             && (forall j | 0 <= j < i :: labels[j] !in SPECIAL) ::
                    ReadAt(labels, i, p))
              && ((forall j | 0 <= j < |labels| :: labels[j] !in SPECIAL) ==> p == Unknown)
  {
    if IsSrvForm(labels) {
      assert |labels| > 2 ==> labels[2..][0] == labels[2] && labels[2..][1..] == labels[3..];
    } else {
      forall i | 0 <= i < |labels| && labels[i] in SPECIAL && (forall j | 0 <= j < i :: labels[j] !in SPECIAL)
        ensures ReadAt(labels, i, ParseLabels(labels))
      {
        ScanReads(labels, 0, i);
      }
      if forall j | 0 <= j < |labels| :: labels[j] !in SPECIAL {
        ScanNothing(labels, 0);
      }
    }
  }

  /** The name without one root dot. */
  function Rootless(s: string): string {
    if s != "" && s[|s| - 1] == '.' then s[..|s| - 1] else s
  }

  /** Only names below the domain, whatever their case, are read: by the labels in front of it.
      The domain itself and names outside it are refused. */
  lemma OnlyBelowDomain(name: string, domain: string)
    ensures var n, d := ToLower(Rootless(name)), ToLower(Rootless(domain));
            && (forall prefix | prefix != "" && n == prefix + "." + d ::
                  ParseName(name, domain) == ParseLabels(Split(prefix, '.')))
            && ((forall prefix | prefix != "" :: n != prefix + "." + d) ==> ParseName(name, domain) == Unknown)
  {
    var n, d := ToLower(Rootless(name)), ToLower(Rootless(domain));
    RootlessIsTrimmed(name);
    RootlessIsTrimmed(domain);
    forall prefix | prefix != "" && n == prefix + "." + d
      ensures ParseName(name, domain) == ParseLabels(Split(prefix, '.'))
    {
      assert prefix + "." + d == prefix + ("." + d);
      WithinPrefix(prefix, d);
    }
    if forall prefix | prefix != "" :: n != prefix + "." + d {
      OutsideIsUnknown(n, d);
    }
  }

  lemma RootlessIsTrimmed(s: string)
    ensures Rootless(s) == TrimSuffix(s, ".")
  {
    if s != "" {
      assert s[|s| - 1..] == [s[|s| - 1]];
    }
  }

  lemma OutsideIsUnknown(n: string, d: string)
    requires forall prefix | prefix != "" :: n != prefix + "." + d
    ensures ParseWithin(n, d) == Unknown
  {
    if HasSuffix(n, "." + d) {
      var prefix := n[..|n| - |d| - 1];
      assert n == prefix + ("." + d) == prefix + "." + d;
      assert prefix == "";
      TrimAppended(".", d);
      assert n == "." + d;
    } else if n == d {
      assert n == "" + d;
      TrimAppended("", d);
    }
  }

  // ---- the SRV targets the server prints ----

  function EffectiveDC(configured: string, dc: string): string {
    if dc == "" || dc == "dc1" then configured else dc
  }

  function Target(name: string, keyword: string, dc: string, dom: string): string {
    name + ("." + keyword + ".") + dc + "." + dom
  }

  /** The target of an SRV record; `ip` is the reachable address in hex if it is an address. */
  function SrvTarget(e: ServiceEntry, ip: Option<string>, dc: string, dom: string): string {
    if e.ReachableAddress() == e.node.address || ip.None?
    then Target(e.node.DisplayName(), "node", dc, dom)
    else Target(ip.value, "addr", dc, dom)
  }

  lemma JoinThree(a: string, b: string, c: string)
    ensures Join(Split(a, '.') + [b, c], '.') == a + "." + b + "." + c
  {
    JoinSplit(a, '.');
    JoinAppend(Split(a, '.'), b);
    assert Split(a, '.') + [b] + [c] == Split(a, '.') + [b, c];
    JoinAppend(Split(a, '.') + [b], c);
  }

  lemma {:induction false} JoinAppend(parts: seq<string>, last: string)
    requires parts != []
    ensures Join(parts + [last], '.') == Join(parts, '.') + "." + last
    decreases |parts|
  {
    assert (parts + [last])[1..] == parts[1..] + [last];
    if |parts| > 1 {
      JoinAppend(parts[1..], last);
    }
  }

  lemma TargetText(a: string, keyword: string, dc: string, zone: string, dotted: bool)
    ensures Target(a, keyword, dc, Dotted(zone, dotted))
              == Dotted(a + "." + keyword + "." + dc + "." + zone, dotted)
  {
  }

  /** A node-form SRV target leads back to its node: parsed under the same zone it names the
      node in lower case, and the server compares node names without case. It leads back to
      the datacenter, once the default is applied again, exactly when that is in lower case
      or spells the default alias: datacenters are compared with case. */
  lemma SrvTargetRoundTrip(
    e: ServiceEntry, ip: Option<string>, configured: string, asked: string, zone: string, dotted: bool)
    requires Zone(zone) && ToLower(asked) == asked
    requires e.service.address == "" || e.service.address == e.node.address || ip.None?
    requires WellFormed(Lowered(OfNode(Split(e.node.DisplayName(), '.'), Legacy(EffectiveDC(configured, asked)))))
    ensures var dc := EffectiveDC(configured, asked);
            var back := ParseName(SrvTarget(e, ip, dc, Dotted(zone, dotted)), Dotted(zone, dotted));
            && back == NodeName(ToLower(e.node.DisplayName()), ToLower(dc))
            && EqualFold(back.node, if e.node.name != "" then e.node.name else e.node.id)
            && (EffectiveDC(configured, back.datacenter) == dc <==> ToLower(dc) == dc || ToLower(dc) == "dc1")
  {
    var dc, node := EffectiveDC(configured, asked), e.node.DisplayName();
    NodeTarget(node, dc, zone, dotted);
    LowerTwice(node);
    DatacenterBack(configured, asked);
  }

  lemma LowerTwice(s: string)
    ensures ToLower(ToLower(s)) == ToLower(s)
  {
  }

  lemma DatacenterBack(configured: string, asked: string)
    requires ToLower(asked) == asked
    ensures var dc := EffectiveDC(configured, asked);
            EffectiveDC(configured, ToLower(dc)) == dc <==> ToLower(dc) == dc || ToLower(dc) == "dc1"
  {
    var dc := EffectiveDC(configured, asked);
    assert ToLower(dc) == "" <==> dc == "";
  }

  /** A datacenter configured with a capital letter is lost on the way back. */
  lemma UpperDatacenterLost(e: ServiceEntry, zone: string, dotted: bool)
    requires Zone(zone) && e.ReachableAddress() == e.node.address
    requires WellFormed(Lowered(OfNode(Split(e.node.DisplayName(), '.'), Legacy("East"))))
    ensures var back := ParseName(SrvTarget(e, None, "East", Dotted(zone, dotted)), Dotted(zone, dotted));
            back.NodeName? && EffectiveDC("East", back.datacenter) != "East"
  {
    assert ToLower("East")[0] == 'e' && ToLower("East") != "dc1";
    SrvTargetRoundTrip(e, None, "East", "", zone, dotted);
  }

  lemma NodeTarget(node: string, dc: string, zone: string, dotted: bool)
    requires Zone(zone) && WellFormed(Lowered(OfNode(Split(node, '.'), Legacy(dc))))
    ensures ParseName(Target(node, "node", dc, Dotted(zone, dotted)), Dotted(zone, dotted))
              == NodeName(ToLower(node), ToLower(dc))
  {
    var f := OfNode(Split(node, '.'), Legacy(dc));
    JoinThree(node, "node", dc);
    JoinSplit(node, '.');
    JoinLower(Split(node, '.'));
    assert Labels(f) == Split(node, '.') + ["node", dc];
    NameRoundTrip(f, zone, dotted, dotted);
    TargetText(node, "node", dc, zone, dotted);
  }

  /** A synthetic address target does not lead back: the server answers nothing under it, so
      only the address record sent along resolves it. */
  lemma AddressTargetUnknown(e: ServiceEntry, hex: string, dc: string, zone: string, dotted: bool)
    requires Zone(zone) && Label(hex) && !Reserved(hex) && Label(ToLower(dc))
    requires e.service.address != "" && e.service.address != e.node.address
    ensures ParseName(SrvTarget(e, Some(hex), dc, Dotted(zone, dotted)), Dotted(zone, dotted)) == Unknown
  {
    AddressTarget(hex, dc, zone, dotted);
  }

  lemma AddressTarget(hex: string, dc: string, zone: string, dotted: bool)
    requires Zone(zone) && Label(hex) && !Reserved(hex) && Label(ToLower(dc))
    ensures ParseName(Target(hex, "addr", dc, Dotted(zone, dotted)), Dotted(zone, dotted)) == Unknown
  {
    AddressLabels(hex, dc);
    ParseUnder(Join([hex, "addr", dc], '.'), zone, dotted, dotted);
    TargetText(hex, "addr", dc, zone, dotted);
  }

  lemma AddressLabels(hex: string, dc: string)
    requires Label(hex) && !Reserved(hex) && Label(ToLower(dc))
    ensures var p := Join([hex, "addr", dc], '.');
            p == hex + "." + "addr" + "." + dc && ParseLabels(Split(ToLower(p), '.')) == Unknown
  {
    var ls, lower := [hex, "addr", dc], [hex, "addr", ToLower(dc)];
    SplitWord(hex, '.');
    JoinThree(hex, "addr", dc);
    assert [hex] + ["addr", dc] == ls;
    JoinLower(ls);
    assert ToLower("addr") == "addr";
    assert LowerAll(ls) == lower;
    SplitJoin(lower, '.');
    assert Scan(lower, 0) == Scan(lower, 1);
  }

}
