/**
  Who uses which secret ref: the sources that report consumers, and the index that merges them.
  A source hands back a map; the order its keys are visited in is left open throughout.
 */
module Consumers {
  import opened Prelude
  import opened Sorting

  datatype Consumer = Consumer(kind: string, name: string, scope: string)

  type Report = map<string, seq<Consumer>>

  datatype EgressInjectRef = EgressInjectRef(host: string, secretRef: string)
  datatype RegistryUpstreamRef = RegistryUpstreamRef(ecosystem: string, credRef: string)
  datatype Cred = Cred(name: string, provider: string)
  datatype PolicyScope = PolicyScope(scope: string, creds: seq<Cred>)
  datatype ConnectionSpec = ConnectionSpec(name: string, kind: string, projectId: string, environmentId: string,
    secretRef: string)

  /** A registered source. `Other` is any source not described here; `None` is its failure. */
  datatype Source =
    | ConfigSource(egress: seq<EgressInjectRef>, upstreams: seq<RegistryUpstreamRef>)
    | PolicySource(scopes: seq<PolicyScope>)
    | ConnectionSource(conns: seq<ConnectionSpec>)
    | Other(answer: Option<Report>)

  function EgressConsumer(r: EgressInjectRef): Consumer { Consumer("egress-inject", r.host, "") }

  function UpstreamConsumer(u: RegistryUpstreamRef): Consumer { Consumer("registry-upstream", u.ecosystem, "") }

  function GrantConsumer(scope: string, c: Cred): Consumer {
    Consumer("policy-grant", if c.provider == "" then "grant" else c.provider, scope)
  }

  function ConnectionConsumer(c: ConnectionSpec): Consumer {
    Consumer("connection", c.kind + ":" + c.name, if c.environmentId == "" then c.projectId else c.environmentId)
  }

  ghost predicate EgressUses(egress: seq<EgressInjectRef>, ref: string, c: Consumer) {
    exists r :: r in egress && r.secretRef == ref && ref != "" && EgressConsumer(r) == c
  }

  ghost predicate UpstreamUses(upstreams: seq<RegistryUpstreamRef>, ref: string, c: Consumer) {
    exists u :: u in upstreams && u.credRef == ref && ref != "" && UpstreamConsumer(u) == c
  }

  ghost predicate ScopeGrants(sc: PolicyScope, creds: seq<Cred>, ref: string, c: Consumer) {
    exists g :: g in creds && g.name == ref && ref != "" && GrantConsumer(sc.scope, g) == c
  }

  ghost predicate PolicyGrants(scopes: seq<PolicyScope>, ref: string, c: Consumer) {
    exists sc :: sc in scopes && ScopeGrants(sc, sc.creds, ref, c)
  }

  ghost predicate ConnectionUses(conns: seq<ConnectionSpec>, ref: string, c: Consumer) {
    exists s :: s in conns && s.secretRef == ref && ref != "" && ConnectionConsumer(s) == c
  }

  predicate Listed(m: Report, ref: string, c: Consumer) {
    ref in m && c in m[ref]
  }

  /** What it means for a source to name `c` as a consumer of `ref`. */
  ghost predicate Reports(src: Source, ref: string, c: Consumer) {
    match src
    case ConfigSource(egress, upstreams) => EgressUses(egress, ref, c) || UpstreamUses(upstreams, ref, c)
    case PolicySource(scopes) => PolicyGrants(scopes, ref, c)
    case ConnectionSource(conns) => ConnectionUses(conns, ref, c)
    case Other(answer) => answer.Some? && Listed(answer.value, ref, c)
  }

  /** What each source reports, field by field. A config names the host of every injection rule and
      the ecosystem of every upstream; a policy names the provider of every grant, or "grant"
      when there is none, under the policy's scope; a connection names its kind and name under
      its environment, or under its project when it has no environment. An empty ref is never
      reported, and only a source of another kind reports anything else. */
  lemma ReportsExactly(src: Source, ref: string, kind: string, name: string, scope: string)
    ensures src.ConfigSource? ==>
              (Reports(src, ref, Consumer(kind, name, scope)) <==>
               ref != "" && scope == "" &&
               ((kind == "egress-inject" && EgressInjectRef(name, ref) in src.egress) ||
                (kind == "registry-upstream" && RegistryUpstreamRef(name, ref) in src.upstreams)))
    ensures src.PolicySource? ==>
              (Reports(src, ref, Consumer(kind, name, scope)) <==>
               ref != "" && kind == "policy-grant" &&
               exists creds, provider :: PolicyScope(scope, creds) in src.scopes && Cred(ref, provider) in creds &&
                 ((provider != "" && name == provider) || (provider == "" && name == "grant")))
    ensures src.ConnectionSource? ==>
              (Reports(src, ref, Consumer(kind, name, scope)) <==>
               ref != "" && kind == "connection" &&
               exists s :: s in src.conns && s.secretRef == ref && name == s.kind + ":" + s.name &&
                 ((s.environmentId != "" && scope == s.environmentId) ||
                  (s.environmentId == "" && scope == s.projectId)))
    ensures src.Other? ==>
              (Reports(src, ref, Consumer(kind, name, scope)) <==>
               src.answer.Some? && ref in src.answer.value && Consumer(kind, name, scope) in src.answer.value[ref])
  {
    var c := Consumer(kind, name, scope);
    match src
    case ConfigSource(egress, upstreams) =>
      if EgressInjectRef(name, ref) in egress && kind == "egress-inject" && ref != "" && scope == "" {
        assert EgressUses(egress, ref, c);
      }
      if RegistryUpstreamRef(name, ref) in upstreams && kind == "registry-upstream" && ref != "" && scope == "" {
        assert UpstreamUses(upstreams, ref, c);
      }
      if EgressUses(egress, ref, c) {
        var r :| r in egress && r.secretRef == ref && ref != "" && EgressConsumer(r) == c;
        assert r == EgressInjectRef(name, ref);
      }
      if UpstreamUses(upstreams, ref, c) {
        var u :| u in upstreams && u.credRef == ref && ref != "" && UpstreamConsumer(u) == c;
        assert u == RegistryUpstreamRef(name, ref);
      }
    case PolicySource(scopes) =>
      if PolicyGrants(scopes, ref, c) {
        var sc :| sc in scopes && ScopeGrants(sc, sc.creds, ref, c);
        var g :| g in sc.creds && g.name == ref && ref != "" && GrantConsumer(sc.scope, g) == c;
        assert sc == PolicyScope(scope, sc.creds) && g == Cred(ref, g.provider);
      }
      if creds, provider :| PolicyScope(scope, creds) in scopes && Cred(ref, provider) in creds &&
                            ((provider != "" && name == provider) || (provider == "" && name == "grant"))
      {
        if ref != "" && kind == "policy-grant" {
          assert ScopeGrants(PolicyScope(scope, creds), creds, ref, c);
        }
      }
    case ConnectionSource(conns) =>
    case Other(answer) =>
  }

  predicate Answers(src: Source) {
    src != Other(None)
  }

  function Append(m: Report, ref: string, cs: seq<Consumer>): Report {
    m[ref := (if ref in m then m[ref] else []) + cs]
  }

  lemma AppendListed(m: Report, ref: string, cs: seq<Consumer>)
    ensures forall r, c :: Listed(Append(m, ref, cs), r, c) <==> Listed(m, r, c) || (r == ref && c in cs)
  {
  }

  method EgressConsumers(egress: seq<EgressInjectRef>, start: Report) returns (out: Report)
    ensures forall ref, c :: Listed(out, ref, c) <==> Listed(start, ref, c) || EgressUses(egress, ref, c)
  {
    out := start;
    var i := 0;
    while i < |egress|
      invariant 0 <= i <= |egress|
      invariant forall ref, c :: Listed(out, ref, c) <==> Listed(start, ref, c) || EgressUses(egress[..i], ref, c)
    {
      var r := egress[i];
      assert egress[..i+1] == egress[..i] + [r];
      if r.secretRef != "" {
        AppendListed(out, r.secretRef, [EgressConsumer(r)]);
        out := Append(out, r.secretRef, [EgressConsumer(r)]);
      }
      i := i + 1;
    }
    assert egress[..i] == egress;
  }

  method UpstreamConsumers(upstreams: seq<RegistryUpstreamRef>, start: Report) returns (out: Report)
    ensures forall ref, c :: Listed(out, ref, c) <==> Listed(start, ref, c) || UpstreamUses(upstreams, ref, c)
  {
    out := start;
    var i := 0;
    while i < |upstreams|
      invariant 0 <= i <= |upstreams|
      invariant forall ref, c :: Listed(out, ref, c) <==> Listed(start, ref, c) || UpstreamUses(upstreams[..i], ref, c)
    {
      var u := upstreams[i];
      assert upstreams[..i+1] == upstreams[..i] + [u];
      if u.credRef != "" {
        AppendListed(out, u.credRef, [UpstreamConsumer(u)]);
        out := Append(out, u.credRef, [UpstreamConsumer(u)]);
      }
      i := i + 1;
    }
    assert upstreams[..i] == upstreams;
  }

  method ConfigConsumers(egress: seq<EgressInjectRef>, upstreams: seq<RegistryUpstreamRef>) returns (out: Report)
    ensures forall ref, c :: Listed(out, ref, c) <==> Reports(ConfigSource(egress, upstreams), ref, c)
  {
    out := EgressConsumers(egress, map[]);
    out := UpstreamConsumers(upstreams, out);
  }

  method ScopeConsumers(sc: PolicyScope, start: Report) returns (out: Report)
    ensures forall ref, c :: Listed(out, ref, c) <==> Listed(start, ref, c) || ScopeGrants(sc, sc.creds, ref, c)
  {
    out := start;
    var i := 0;
    while i < |sc.creds|
      invariant 0 <= i <= |sc.creds|
      invariant forall ref, c :: Listed(out, ref, c) <==>
                  Listed(start, ref, c) || ScopeGrants(sc, sc.creds[..i], ref, c)
    {
      var g := sc.creds[i];
      assert sc.creds[..i+1] == sc.creds[..i] + [g];
      if g.name != "" {
        AppendListed(out, g.name, [GrantConsumer(sc.scope, g)]);
        out := Append(out, g.name, [GrantConsumer(sc.scope, g)]);
      }
      i := i + 1;
    }
    assert sc.creds[..i] == sc.creds;
  }

  method PolicyConsumers(scopes: seq<PolicyScope>) returns (out: Report)
    ensures forall ref, c :: Listed(out, ref, c) <==> Reports(PolicySource(scopes), ref, c)
  {
    out := map[];
    var i := 0;
    while i < |scopes|
      invariant 0 <= i <= |scopes|
      invariant forall ref, c :: Listed(out, ref, c) <==> PolicyGrants(scopes[..i], ref, c)
    {
      assert scopes[..i+1] == scopes[..i] + [scopes[i]];
      out := ScopeConsumers(scopes[i], out);
      i := i + 1;
    }
    assert scopes[..i] == scopes;
  }

  method ConnectionConsumers(conns: seq<ConnectionSpec>) returns (out: Report)
    ensures forall ref, c :: Listed(out, ref, c) <==> Reports(ConnectionSource(conns), ref, c)
  {
    out := map[];
    var i := 0;
    while i < |conns|
      invariant 0 <= i <= |conns|
      invariant forall ref, c :: Listed(out, ref, c) <==> ConnectionUses(conns[..i], ref, c)
    {
      var s := conns[i];
      assert conns[..i+1] == conns[..i] + [s];
      if s.secretRef != "" {
        AppendListed(out, s.secretRef, [ConnectionConsumer(s)]);
        out := Append(out, s.secretRef, [ConnectionConsumer(s)]);
      }
      i := i + 1;
    }
    assert conns[..i] == conns;
  }

  method Query(src: Source) returns (answer: Option<Report>)
    ensures answer.Some? <==> Answers(src)
    ensures answer.Some? ==> forall ref, c :: Listed(answer.value, ref, c) <==> Reports(src, ref, c)
  {
    match src
    case ConfigSource(egress, upstreams) =>
      var out := ConfigConsumers(egress, upstreams);
      answer := Some(out);
    case PolicySource(scopes) =>
      var out := PolicyConsumers(scopes);
      answer := Some(out);
    case ConnectionSource(conns) =>
      var out := ConnectionConsumers(conns);
      answer := Some(out);
    case Other(a) =>
      answer := a;
  }

  // ---------------------------------------------------------------------------
  // Merging
  // ---------------------------------------------------------------------------

  /** By kind, then name, then scope. */
  predicate ConsumerLe(a: Consumer, b: Consumer) {
    if a.kind != b.kind then LexLe(a.kind, b.kind)
    else if a.name != b.name then LexLe(a.name, b.name)
    else LexLe(a.scope, b.scope)
  }

  /** The kinds decide, between equal kinds the names, and between equal names the scopes. */
  lemma ConsumerLeExactly(a: Consumer, b: Consumer)
    ensures a.kind != b.kind ==> (ConsumerLe(a, b) <==> LexLe(a.kind, b.kind))
    ensures a.kind == b.kind && a.name != b.name ==> (ConsumerLe(a, b) <==> LexLe(a.name, b.name))
    ensures a.kind == b.kind && a.name == b.name ==> (ConsumerLe(a, b) <==> LexLe(a.scope, b.scope))
  {
  }

  lemma ConsumerOrder()
    ensures TotalPreorder(ConsumerLe) && Antisymmetric(ConsumerLe)
  {
    forall a, b ensures ConsumerLe(a, b) || ConsumerLe(b, a) {
      LexTotal(a.kind, b.kind); LexTotal(a.name, b.name); LexTotal(a.scope, b.scope);
    }
    forall a, b, c | ConsumerLe(a, b) && ConsumerLe(b, c) ensures ConsumerLe(a, c) {
      ConsumerLeTransitive(a, b, c);
    }
    forall a, b | ConsumerLe(a, b) && ConsumerLe(b, a) ensures a == b {
      ConsumerLeAntisymmetric(a, b);
    }
  }

  lemma ConsumerLeAntisymmetric(a: Consumer, b: Consumer)
    requires ConsumerLe(a, b) && ConsumerLe(b, a)
    ensures a == b
  {
    LexOrder();
  }

  lemma ConsumerLeTransitive(a: Consumer, b: Consumer, c: Consumer)
    requires ConsumerLe(a, b) && ConsumerLe(b, c)
    ensures ConsumerLe(a, c)
  {
    LexOrder();
    if a.kind == b.kind == c.kind && a.name == b.name == c.name {
      LexTransitive(a.scope, b.scope, c.scope);
    } else if a.kind == b.kind == c.kind {
      LexTransitive(a.name, b.name, c.name);
      if a.name == c.name {
        LexAntisymmetric(a.name, b.name);
      }
    } else {
      LexTransitive(a.kind, b.kind, c.kind);
      if a.kind == c.kind {
        LexAntisymmetric(a.kind, b.kind);
      }
    }
  }

  method DedupeConsumers(cs: seq<Consumer>) returns (out: seq<Consumer>)
    ensures SortedBy(out, ConsumerLe) && Distinct(out) && Elements(out) == Elements(cs)
  {
    var unique: seq<Consumer> := [];
    var i := 0;
    while i < |cs|
      invariant 0 <= i <= |cs| && Distinct(unique)
      invariant Elements(unique) == Elements(cs[..i])
    {
      assert cs[..i+1] == cs[..i] + [cs[i]];
      assert Elements(cs[..i+1]) == Elements(cs[..i]) + {cs[i]};
      assert cs[i] in unique <==> cs[i] in Elements(unique);
      if cs[i] !in unique {
        assert Elements(unique + [cs[i]]) == Elements(unique) + {cs[i]};
        unique := unique + [cs[i]];
      }
      i := i + 1;
    }
    assert cs[..i] == cs;
    out := Sort(unique, ConsumerLe);
    SortDistinct(unique, ConsumerLe);
    ConsumerOrder();
    SortSorts(unique, ConsumerLe);
  }

  /** Some source of the index names `c` as a consumer of `ref`. */
  ghost predicate SomeSourceReports(sources: seq<Source>, ref: string, c: Consumer) {
    exists i :: 0 <= i < |sources| && Reports(sources[i], ref, c)
  }

  /** An index reading: exactly the reported consumers, each list strictly sorted. */
  ghost predicate Reading(sources: seq<Source>, all: Report) {
    && (forall ref, c :: Listed(all, ref, c) <==> SomeSourceReports(sources, ref, c))
    && (forall ref :: ref in all ==> SortedBy(all[ref], ConsumerLe) && Distinct(all[ref]))
  }

  function ListOf(m: Report, ref: string): seq<Consumer> {
    if ref in m then m[ref] else []
  }

  /** The reading of an index does not depend on the order any map was iterated in. */
  lemma ReadingIsDetermined(sources: seq<Source>, a: Report, b: Report, ref: string)
    requires Reading(sources, a) && Reading(sources, b)
    ensures ListOf(a, ref) == ListOf(b, ref)
  {
    forall c ensures c in Elements(ListOf(a, ref)) <==> c in Elements(ListOf(b, ref)) {
      assert Listed(a, ref, c) <==> Listed(b, ref, c);
    }
    ConsumerOrder();
    SortedSetUnique(ListOf(a, ref), ListOf(b, ref), ConsumerLe);
  }

  method MergeInto(merged: Report, got: Report) returns (out: Report)
    ensures forall ref, c :: Listed(out, ref, c) <==> Listed(merged, ref, c) || Listed(got, ref, c)
  {
    out := merged;
    var pending := got.Keys;
    while pending != {}
      invariant pending <= got.Keys
      invariant forall ref, c :: Listed(out, ref, c) <==>
                  Listed(merged, ref, c) || (ref !in pending && Listed(got, ref, c))
      decreases |pending|
    {
      var ref :| ref in pending;
      AppendListed(out, ref, got[ref]);
      out := Append(out, ref, got[ref]);
      pending := pending - {ref};
    }
  }

  method DedupeAll(merged: Report) returns (out: Report)
    ensures forall ref, c :: Listed(out, ref, c) <==> Listed(merged, ref, c)
    ensures forall ref :: ref in out ==> SortedBy(out[ref], ConsumerLe) && Distinct(out[ref])
  {
    out := merged;
    var pending := merged.Keys;
    while pending != {}
      invariant pending <= merged.Keys == out.Keys
      invariant forall ref :: ref in pending ==> out[ref] == merged[ref]
      invariant forall ref :: ref in out && ref !in pending ==>
        SortedBy(out[ref], ConsumerLe) && Distinct(out[ref]) && Elements(out[ref]) == Elements(merged[ref])
      decreases |pending|
    {
      var ref :| ref in pending;
      var list := DedupeConsumers(out[ref]);
      out := out[ref := list];
      pending := pending - {ref};
    }
    forall ref, c ensures Listed(out, ref, c) <==> Listed(merged, ref, c) {
      if ref in merged {
        assert c in Elements(out[ref]) <==> c in Elements(merged[ref]);
      }
    }
  }

  /** The sources that are there, in order and as often as given. */
  function Present(given: seq<Option<Source>>): seq<Source> {
    if given == [] then []
    else Present(given[..|given|-1]) + if given[|given|-1].Some? then [given[|given|-1].value] else []
  }

  lemma PresentInOrder(a: seq<Option<Source>>, b: seq<Option<Source>>)
    ensures Present(a + b) == Present(a) + Present(b)
    ensures Present([None]) == [] && forall s :: Present([Some(s)]) == [s]
  {
    var one := (s: Option<Source>) => if s.Some? then [s.value] else [];
    var all := (given: seq<Option<Source>>) => Present(given);
    EachInTurn(one, all, a, b);
    forall s: Option<Source> ensures [s][..0] == [] {
    }
  }

  class ConsumerIndex {
    var sources: seq<Source>

    /** A missing source is ignored. */
    constructor (given: seq<Option<Source>>)
      ensures sources == Present(given)
    {
      var kept: seq<Source> := [];
      for i := 0 to |given|
        invariant kept == Present(given[..i])
      {
        assert given[..i+1][..i] == given[..i];
        if given[i].Some? {
          kept := kept + [given[i].value];
        }
      }
      assert given[..|given|] == given;
      sources := kept;
    }

    method Register(s: Option<Source>)
      modifies this
      ensures sources == if s.Some? then old(sources) + [s.value] else old(sources)
    {
      if s.Some? {
        sources := sources + [s.value];
      }
    }

    /** Every addressed ref with its consumers; a single source that cannot answer fails the reading. */
    method All() returns (all: Option<Report>)
      ensures all.Some? <==> forall i :: 0 <= i < |sources| ==> sources[i] != Other(None)
      ensures all.Some? ==> Reading(sources, all.value)
    {
      var merged: Report := map[];
      var i := 0;
      while i < |sources|
        invariant 0 <= i <= |sources|
        invariant forall j :: 0 <= j < i ==> Answers(sources[j])
        invariant forall ref, c :: Listed(merged, ref, c) <==> SomeSourceReports(sources[..i], ref, c)
      {
        var got := Query(sources[i]);
        if got.None? {
          return None;
        }
        MoreSources(sources, i);
        merged := MergeInto(merged, got.value);
        i := i + 1;
      }
      assert sources[..i] == sources;
      var out := DedupeAll(merged);
      all := Some(out);
    }

    method Of(ref: string) returns (cs: Option<seq<Consumer>>)
      ensures cs.Some? <==> forall i :: 0 <= i < |sources| ==> sources[i] != Other(None)
      ensures cs.Some? ==> forall c :: c in cs.value <==> SomeSourceReports(sources, ref, c)
      ensures cs.Some? ==> SortedBy(cs.value, ConsumerLe) && Distinct(cs.value)
    {
      var all := All();
      if all.None? {
        return None;
      }
      cs := Some(ListOf(all.value, ref));
      forall c ensures c in cs.value <==> SomeSourceReports(sources, ref, c) {
        assert Listed(all.value, ref, c) <==> c in cs.value;
      }
    }
  }

  lemma MoreSources(sources: seq<Source>, i: nat)
    requires i < |sources|
    ensures forall ref, c :: SomeSourceReports(sources[..i+1], ref, c) <==>
              SomeSourceReports(sources[..i], ref, c) || Reports(sources[i], ref, c)
  {
    forall ref, c
      ensures SomeSourceReports(sources[..i+1], ref, c) <==>
                SomeSourceReports(sources[..i], ref, c) || Reports(sources[i], ref, c)
    {
      if Reports(sources[i], ref, c) {
        assert Reports(sources[..i+1][i], ref, c);
      }
      if SomeSourceReports(sources[..i], ref, c) {
        var j :| 0 <= j < i && Reports(sources[..i][j], ref, c);
        assert Reports(sources[..i+1][j], ref, c);
      }
      if SomeSourceReports(sources[..i+1], ref, c) {
        var j :| 0 <= j <= i && Reports(sources[..i+1][j], ref, c);
        if j < i {
          assert Reports(sources[..i][j], ref, c);
        }
      }
    }
  }
}
