/**
 * The ALB load-balancer builder of the ingress reconciler: from the load
 * balancer section of an AlbConfig it derives the name, the zone mappings and
 * the protection settings of the ALB to create, and records the result on the
 * model-build task.
 *
 * The SHA-256 digest and the vSwitch resolver are parameters of the task.
 */
module AlbLoadBalancer {
  import opened Wrappers
  import opened Strings
  import opened Sequences

  // ---------------------------------------------------------------------
  // Load balancer name

  /** The POSIX class [[:alnum:]] of Go's regexp: ASCII letters and digits. */
  predicate IsAsciiAlnum(c: char) {
    ('0' <= c <= '9') || ('a' <= c <= 'z') || ('A' <= c <= 'Z')
  }

  predicate AllAlnum(s: string) {
    forall i | 0 <= i < |s| :: IsAsciiAlnum(s[i])
  }

  /** Replacing every match of [[:^alnum:]] by "": the ASCII letters and digits of `s`, in order. */
  function Sanitize(s: string): (r: string)
    ensures AllAlnum(r)
    ensures |r| <= |s|
  {
    Filter(IsAsciiAlnum, s)
  }

  /** Sanitizing a concatenation sanitizes each part: the replacement works character by character. */
  lemma SanitizeAppend(a: string, b: string)
    ensures Sanitize(a + b) == Sanitize(a) + Sanitize(b)
  {
    FilterAppend(IsAsciiAlnum, a, b);
  }

  /** A text is left unchanged exactly when it is already all letters and digits. */
  lemma SanitizeFixpoint(s: string)
    ensures Sanitize(s) == s <==> AllAlnum(s)
  {
    FilterFixpoint(IsAsciiAlnum, s);
  }

  /** Sanitizing twice is sanitizing once. */
  lemma SanitizeIdempotent(s: string)
    ensures Sanitize(Sanitize(s)) == Sanitize(s)
  {
    SanitizeFixpoint(Sanitize(s));
  }

  /** Every letter and digit of `s` survives, as often as it occurs; nothing else does. */
  lemma SanitizeKeepsAlnum(s: string)
    ensures forall c | IsAsciiAlnum(c) :: multiset(Sanitize(s))[c] == multiset(s)[c]
    ensures forall c | !IsAsciiAlnum(c) :: c !in Sanitize(s)
  {
    FilterCount(IsAsciiAlnum, s);
  }

  predicate IsLowerHex(c: char) {
    ('0' <= c <= '9') || ('a' <= c <= 'f')
  }

  /** hex.EncodeToString of a SHA-256 sum: 64 lower-case hexadecimal digits. */
  type HexDigest = s: string | |s| == 64 && forall i | 0 <= i < |s| :: IsLowerHex(s[i])
    witness seq(64, _ => '0')

  /** Length of the digest prefix kept by the %.10s verb. */
  const DigestPrefixLength: nat := 10

  /**
   * buildAlbLoadBalancerName: `digest` is the hex SHA-256 of its argument,
   * here the cluster id followed by the ingress group id's text.
   */
  function LoadBalancerName(clusterId: string, groupId: string, namespace: string, name: string,
                            digest: string -> HexDigest): (r: string)
    ensures |r| == 4 + |Sanitize(namespace)| + 1 + |Sanitize(name)| + 1 + DigestPrefixLength
    ensures r[..4] == "k8s-"
    ensures r[|r| - DigestPrefixLength..] == digest(clusterId + groupId)[..DigestPrefixLength]
  {
    "k8s-" + Sanitize(namespace) + "-" + Sanitize(name) + "-" + digest(clusterId + groupId)[..DigestPrefixLength]
  }

  /**
   * The name reads back unambiguously: split on '-' it is exactly "k8s", the
   * sanitized namespace, the sanitized name and the digest prefix.
   */
  lemma LoadBalancerNameParts(clusterId: string, groupId: string, namespace: string, name: string,
                              digest: string -> HexDigest)
    ensures Split(LoadBalancerName(clusterId, groupId, namespace, name, digest), '-')
         == ["k8s", Sanitize(namespace), Sanitize(name), digest(clusterId + groupId)[..DigestPrefixLength]]
  {
    var parts := ["k8s", Sanitize(namespace), Sanitize(name), digest(clusterId + groupId)[..DigestPrefixLength]];
    assert Join(parts, '-') == LoadBalancerName(clusterId, groupId, namespace, name, digest) by {
      assert Join(parts[2..], '-') == parts[2] + "-" + parts[3] by {
        assert parts[2..][1..] == [parts[3]];
      }
      assert Join(parts[1..], '-') == parts[1] + "-" + Join(parts[2..], '-') by {
        assert parts[1..][1..] == parts[2..];
      }
    }
    forall i | 0 <= i < |parts|
      ensures '-' !in parts[i]
    {
      if i == 1 || i == 2 {
        assert !IsAsciiAlnum('-');
      } else if i == 3 {
        assert forall k | 0 <= k < |parts[3]| :: IsLowerHex(parts[3][k]);
      }
    }
    SplitJoin(parts, '-');
  }

  /** Two groups get the same generated name only if their sanitized namespaces and names agree. */
  lemma LoadBalancerNameDetermines(clusterId: string, groupId1: string, namespace1: string, name1: string,
                                   groupId2: string, namespace2: string, name2: string, digest: string -> HexDigest)
    requires LoadBalancerName(clusterId, groupId1, namespace1, name1, digest)
          == LoadBalancerName(clusterId, groupId2, namespace2, name2, digest)
    ensures Sanitize(namespace1) == Sanitize(namespace2) && Sanitize(name1) == Sanitize(name2)
  {
    LoadBalancerNameParts(clusterId, groupId1, namespace1, name1, digest);
    LoadBalancerNameParts(clusterId, groupId2, namespace2, name2, digest);
  }

  lemma SanitizeUnderscore()
    ensures Sanitize("team_a") == "teama"
  {
    assert "team_a" == "team" + "_" + "a";
    SanitizeAppend("team" + "_", "a");
    SanitizeAppend("team", "_");
    SanitizeFixpoint("team");
    SanitizeFixpoint("a");
    FilterSingle(IsAsciiAlnum, '_');
  }

  lemma SanitizeDot()
    ensures Sanitize("web.app") == "webapp"
  {
    assert "web.app" == "web" + "." + "app";
    SanitizeAppend("web" + ".", "app");
    SanitizeAppend("web", ".");
    SanitizeFixpoint("web");
    SanitizeFixpoint("app");
    FilterSingle(IsAsciiAlnum, '.');
  }

  /** Characters outside [0-9A-Za-z] are dropped from namespace and name before they are joined. */
  lemma LoadBalancerNameExample(digest: string -> HexDigest)
    ensures LoadBalancerName("c1", "g", "team_a", "web.app", digest)
         == "k8s-teama-webapp-" + digest("c1g")[..DigestPrefixLength]
  {
    SanitizeUnderscore();
    SanitizeDot();
    assert "c1" + "g" == "c1g";
    assert "k8s-" + "teama" + "-" + "webapp" + "-" == "k8s-teama-webapp-";
  }

  // ---------------------------------------------------------------------
  // Load balancer spec

  /** A ZoneMappings entry of the AlbConfig. */
  datatype ZoneMappingConfig = ZoneMappingConfig(vSwitchId: string, zoneId: string)

  /** The load balancer section of an AlbConfig, as far as the builder reads it. */
  datatype LoadBalancerConfig = LoadBalancerConfig(
    id: string,
    forceOverride: bool,
    name: string,
    zoneMappings: seq<ZoneMappingConfig>,
    addressAllocatedMode: string,
    addressType: string,
    deletionProtectionEnabled: Option<bool>,
    edition: string)

  /** A vSwitch as the resolver reports it. */
  datatype VSwitch = VSwitch(vSwitchId: string, zoneId: string)

  datatype ZoneMapping = ZoneMapping(vSwitchId: string, zoneId: string)

  datatype DeletionProtectionConfig = DeletionProtectionConfig(enabled: bool, enabledTime: string)

  datatype ModificationProtectionConfig = ModificationProtectionConfig(reason: string, status: string)

  datatype LoadBalancerSpec = LoadBalancerSpec(
    loadBalancerId: string,
    forceOverride: bool,
    loadBalancerName: string,
    vpcId: string,
    zoneMapping: seq<ZoneMapping>,
    addressAllocatedMode: string,
    addressType: string,
    deletionProtection: DeletionProtectionConfig,
    modificationProtection: ModificationProtectionConfig,
    edition: string)

  /** The zero spec returned with every error. */
  const EmptySpec := LoadBalancerSpec("", false, "", "", [], "", "", DeletionProtectionConfig(false, ""),
                                      ModificationProtectionConfig("", ""), "")

  /** Resource type under which the load balancer is registered on the stack. */
  const ApplicationLoadBalancerResource := "ApplicationLoadBalancer"

  /** The modification-protection status every generated spec carries. */
  const ConsoleProtection := "ConsoleProtection"

  const TooFewVSwitches := "unable to discover at least two vswitchs for alb"
  const TooFewZones := "unable to discover at least two albZones for alb"

  /** A call made to the vSwitch resolver. */
  datatype ResolverCall = ResolveViaIdSlice(ids: seq<string>) | ResolveViaDiscovery

  /** What building a spec produced: the spec, its error, and the resolver calls it made. */
  datatype SpecBuild = SpecBuild(spec: LoadBalancerSpec, err: Option<string>, calls: seq<ResolverCall>)

  /** The vSwitch ids of the configured zone mappings, in order. */
  function VSwitchIds(zoneMappings: seq<ZoneMappingConfig>): (ids: seq<string>)
    ensures |ids| == |zoneMappings|
    ensures forall i | 0 <= i < |ids| :: ids[i] == zoneMappings[i].vSwitchId
  {
    seq(|zoneMappings|, i requires 0 <= i < |zoneMappings| => zoneMappings[i].vSwitchId)
  }

  /** One zone mapping per vSwitch, in order, copying the vSwitch id and the zone id. */
  function ZoneMappingsOf(vSwitches: seq<VSwitch>): (zms: seq<ZoneMapping>)
    ensures |zms| == |vSwitches|
    ensures forall i | 0 <= i < |zms| ::
      zms[i].vSwitchId == vSwitches[i].vSwitchId && zms[i].zoneId == vSwitches[i].zoneId
  {
    seq(|vSwitches|, i requires 0 <= i < |vSwitches| => ZoneMapping(vSwitches[i].vSwitchId, vSwitches[i].zoneId))
  }

  /** The appending loops of buildAlbLoadBalancerSpec, over the resolved vSwitches. */
  method AppendZoneMappings(vSwitches: seq<VSwitch>) returns (zoneMappings: seq<ZoneMapping>)
    ensures zoneMappings == ZoneMappingsOf(vSwitches)
  {
    zoneMappings := [];
    for i := 0 to |vSwitches|
      invariant zoneMappings == ZoneMappingsOf(vSwitches[..i])
    {
      zoneMappings := zoneMappings + [ZoneMapping(vSwitches[i].vSwitchId, vSwitches[i].zoneId)];
    }
    assert vSwitches[..|vSwitches|] == vSwitches;
  }

  /** The built load balancer: its resource type and spec. */
  datatype AlbLoadBalancer = AlbLoadBalancer(resourceType: string, spec: LoadBalancerSpec)

  /**
   * The model-build task: the cluster id, the ingress group (namespace, name
   * and the text of its id), the VPC id, the digest, the vSwitch resolver's
   * answers, and the load balancer built so far.
   */
  class ModelBuildTask {
    const clusterId: string
    const groupNamespace: string
    const groupName: string
    const groupId: string
    const vpcId: string
    const digest: string -> HexDigest
    const resolveViaIdSlice: seq<string> -> Result<seq<VSwitch>, string>
    const resolveViaDiscovery: Result<seq<VSwitch>, string>
    var loadBalancer: Option<AlbLoadBalancer>

    constructor(clusterId: string, groupNamespace: string, groupName: string, groupId: string, vpcId: string,
                digest: string -> HexDigest,
                resolveViaIdSlice: seq<string> -> Result<seq<VSwitch>, string>,
                resolveViaDiscovery: Result<seq<VSwitch>, string>)
      ensures this.clusterId == clusterId && this.groupNamespace == groupNamespace && this.groupName == groupName
      ensures this.groupId == groupId && this.vpcId == vpcId && this.digest == digest
      ensures this.resolveViaIdSlice == resolveViaIdSlice && this.resolveViaDiscovery == resolveViaDiscovery
      ensures loadBalancer.None?
    {
      this.clusterId := clusterId;
      this.groupNamespace := groupNamespace;
      this.groupName := groupName;
      this.groupId := groupId;
      this.vpcId := vpcId;
      this.digest := digest;
      this.resolveViaIdSlice := resolveViaIdSlice;
      this.resolveViaDiscovery := resolveViaDiscovery;
      loadBalancer := None;
    }

    /** The name generated for this task's ingress group. */
    function GeneratedName(): (r: string)
      ensures Split(r, '-') == ["k8s", Sanitize(groupNamespace), Sanitize(groupName),
                                digest(clusterId + groupId)[..DigestPrefixLength]]
    {
      LoadBalancerNameParts(clusterId, groupId, groupNamespace, groupName, digest);
      LoadBalancerName(clusterId, groupId, groupNamespace, groupName, digest)
    }

    /** The resolver's answer to `call`. */
    function Answer(call: ResolverCall): Result<seq<VSwitch>, string> {
      match call
      case ResolveViaIdSlice(ids) => resolveViaIdSlice(ids)
      case ResolveViaDiscovery => resolveViaDiscovery
    }

    /** The resolver call made for a config without a load balancer id. */
    function ResolverCallFor(cfg: LoadBalancerConfig): ResolverCall {
      if cfg.zoneMappings != [] then ResolveViaIdSlice(VSwitchIds(cfg.zoneMappings)) else ResolveViaDiscovery
    }

    /**
     * The build stops at the vSwitch resolution: there is no load balancer id
     * and the resolver answers with an error or with fewer than two vSwitches.
     */
    predicate ResolutionFails(cfg: LoadBalancerConfig) {
      && cfg.id == ""
      && var answer := Answer(ResolverCallFor(cfg));
         answer.Err? || |answer.value| < 2
    }

    /** The spec of a successful build with the given zone mappings. */
    function SuccessSpec(cfg: LoadBalancerConfig, zoneMappings: seq<ZoneMapping>): LoadBalancerSpec
      requires cfg.deletionProtectionEnabled.Some?
    {
      LoadBalancerSpec(cfg.id, cfg.forceOverride, if |cfg.name| != 0 then cfg.name else GeneratedName(), vpcId,
                       zoneMappings, cfg.addressAllocatedMode, cfg.addressType,
                       DeletionProtectionConfig(cfg.deletionProtectionEnabled.value, ""),
                       ModificationProtectionConfig("", ConsoleProtection), cfg.edition)
    }

    /** The fields of a successful spec that do not depend on the resolver. */
    predicate CopiesConfig(cfg: LoadBalancerConfig, spec: LoadBalancerSpec)
      requires cfg.deletionProtectionEnabled.Some?
    {
      && spec.loadBalancerId == cfg.id
      && spec.forceOverride == cfg.forceOverride
      && spec.loadBalancerName == (if |cfg.name| != 0 then cfg.name else GeneratedName())
      && spec.vpcId == vpcId
      && spec.addressAllocatedMode == cfg.addressAllocatedMode
      && spec.addressType == cfg.addressType
      && spec.deletionProtection == DeletionProtectionConfig(cfg.deletionProtectionEnabled.value, "")
      && spec.modificationProtection == ModificationProtectionConfig("", ConsoleProtection)
      && spec.edition == cfg.edition
    }

    /**
     * What buildAlbLoadBalancerSpec promises. With a load balancer id no
     * resolver is consulted and there are no zone mappings. Otherwise exactly
     * one resolver call is made (by the configured vSwitch ids, in order, or by
     * discovery when none are configured); its error, or fewer than two
     * vSwitches, gives an error and the empty spec; else there is one mapping
     * per resolved vSwitch, in order. The deletion-protection flag is read
     * only once the resolution has succeeded, so it may be unset when the
     * resolution fails.
     */
    function SpecOutcome(cfg: LoadBalancerConfig): (r: SpecBuild)
      requires cfg.deletionProtectionEnabled.Some? || ResolutionFails(cfg)
      ensures cfg.id != "" ==> r.calls == [] && r.err.None? && r.spec.zoneMapping == []
      ensures cfg.id == "" && cfg.zoneMappings != [] ==> r.calls == [ResolveViaIdSlice(VSwitchIds(cfg.zoneMappings))]
      ensures cfg.id == "" && cfg.zoneMappings == [] ==> r.calls == [ResolveViaDiscovery]
      ensures cfg.id == "" && Answer(r.calls[0]).Err? ==> r.err == Some(Answer(r.calls[0]).error)
      ensures cfg.id == "" && Answer(r.calls[0]).Ok? && |Answer(r.calls[0]).value| < 2 ==>
        r.err == Some(if cfg.zoneMappings != [] then TooFewVSwitches else TooFewZones)
      ensures cfg.id == "" && Answer(r.calls[0]).Ok? && |Answer(r.calls[0]).value| >= 2 ==>
        r.err.None? && r.spec.zoneMapping == ZoneMappingsOf(Answer(r.calls[0]).value)
      ensures r.err.Some? ==> r.spec == EmptySpec
      ensures r.err.Some? <==> ResolutionFails(cfg)
      ensures r.err.None? ==> cfg.deletionProtectionEnabled.Some? && CopiesConfig(cfg, r.spec)
    {
      if cfg.id != "" then SpecBuild(SuccessSpec(cfg, []), None, [])
      else
        var call := ResolverCallFor(cfg);
        match Answer(call)
        case Err(e) => SpecBuild(EmptySpec, Some(e), [call])
        case Ok(vSwitches) =>
          if |vSwitches| < 2 then
            SpecBuild(EmptySpec, Some(if cfg.zoneMappings != [] then TooFewVSwitches else TooFewZones), [call])
          else SpecBuild(SuccessSpec(cfg, ZoneMappingsOf(vSwitches)), None, [call])
    }

    /** buildAlbLoadBalancerSpec: fills the spec field by field, resolving vSwitches when no id is given. */
    method BuildAlbLoadBalancerSpec(cfg: LoadBalancerConfig)
      returns (spec: LoadBalancerSpec, err: Option<string>, calls: seq<ResolverCall>)
      requires cfg.deletionProtectionEnabled.Some? || ResolutionFails(cfg)
      ensures SpecBuild(spec, err, calls) == SpecOutcome(cfg)
    {
      calls := [];
      spec := EmptySpec;
      spec := spec.(loadBalancerId := cfg.id, forceOverride := cfg.forceOverride);
      if |cfg.name| != 0 {
        spec := spec.(loadBalancerName := cfg.name);
      } else {
        spec := spec.(loadBalancerName := GeneratedName());
      }
      spec := spec.(vpcId := vpcId);

      var zoneMappings: seq<ZoneMapping> := [];
      if cfg.id == "" {
        if |cfg.zoneMappings| != 0 {
          var vSwitchIds: seq<string> := [];
          for i := 0 to |cfg.zoneMappings|
            invariant vSwitchIds == VSwitchIds(cfg.zoneMappings[..i])
          {
            vSwitchIds := vSwitchIds + [cfg.zoneMappings[i].vSwitchId];
          }
          assert cfg.zoneMappings[..|cfg.zoneMappings|] == cfg.zoneMappings;
          calls := [ResolveViaIdSlice(vSwitchIds)];
          var vSwitches := resolveViaIdSlice(vSwitchIds);
          if vSwitches.Err? {
            return EmptySpec, Some(vSwitches.error), calls;
          }
          if |vSwitches.value| < 2 {
            return EmptySpec, Some(TooFewVSwitches), calls;
          }
          zoneMappings := AppendZoneMappings(vSwitches.value);
        } else {
          calls := [ResolveViaDiscovery];
          var vSwitches := resolveViaDiscovery;
          if vSwitches.Err? {
            return EmptySpec, Some(vSwitches.error), calls;
          }
          if |vSwitches.value| < 2 {
            return EmptySpec, Some(TooFewZones), calls;
          }
          zoneMappings := AppendZoneMappings(vSwitches.value);
        }
      }
      spec := spec.(zoneMapping := zoneMappings);

      spec := spec.(addressAllocatedMode := cfg.addressAllocatedMode, addressType := cfg.addressType);
      spec := spec.(deletionProtection := DeletionProtectionConfig(cfg.deletionProtectionEnabled.value, ""));
      spec := spec.(modificationProtection := ModificationProtectionConfig("", ConsoleProtection));
      spec := spec.(edition := cfg.edition);
      err := None;
    }

    /**
     * buildAlbLoadBalancer: on success the load balancer, typed
     * ApplicationLoadBalancer and carrying the built spec, is returned and
     * stored on the task; on error nothing is stored.
     */
    method BuildAlbLoadBalancer(cfg: LoadBalancerConfig) returns (lb: Option<AlbLoadBalancer>, err: Option<string>)
      requires cfg.deletionProtectionEnabled.Some? || ResolutionFails(cfg)
      modifies this
      ensures err == SpecOutcome(cfg).err
      ensures err.Some? ==> lb.None? && loadBalancer == old(loadBalancer)
      ensures err.None? ==>
        lb == Some(AlbLoadBalancer(ApplicationLoadBalancerResource, SpecOutcome(cfg).spec)) && loadBalancer == lb
    {
      var spec, e, _ := BuildAlbLoadBalancerSpec(cfg);
      if e.Some? {
        return None, e;
      }
      lb := Some(AlbLoadBalancer(ApplicationLoadBalancerResource, spec));
      loadBalancer := lb;
      err := None;
    }
  }

  // ---------------------------------------------------------------------
  // Properties of the builder

  /** A configured name is used verbatim; without one the generated name is used. */
  lemma NameChoice(task: ModelBuildTask, cfg: LoadBalancerConfig)
    requires cfg.deletionProtectionEnabled.Some? || task.ResolutionFails(cfg)
    requires task.SpecOutcome(cfg).err.None?
    ensures |cfg.name| != 0 ==> task.SpecOutcome(cfg).spec.loadBalancerName == cfg.name
    ensures |cfg.name| == 0 ==>
      task.SpecOutcome(cfg).spec.loadBalancerName
        == LoadBalancerName(task.clusterId, task.groupId, task.groupNamespace, task.groupName, task.digest)
  {
  }

  /** A successful build without a load balancer id has at least two zone mappings. */
  lemma AtLeastTwoZones(task: ModelBuildTask, cfg: LoadBalancerConfig)
    requires (cfg.deletionProtectionEnabled.Some? || task.ResolutionFails(cfg)) && cfg.id == ""
    ensures task.SpecOutcome(cfg).err.None? <==> |task.SpecOutcome(cfg).spec.zoneMapping| >= 2
  {
    var r := task.SpecOutcome(cfg);
    if r.err.Some? {
      assert r.spec == EmptySpec;
    }
  }

  /** Explicit zone mappings are resolved by exactly their vSwitch ids, whatever zones they name. */
  lemma ExplicitMappingsIgnoreZones(task: ModelBuildTask, cfg: LoadBalancerConfig, zones: seq<string>)
    requires cfg.deletionProtectionEnabled.Some? || task.ResolutionFails(cfg)
    requires cfg.id == "" && cfg.zoneMappings != []
    requires |zones| == |cfg.zoneMappings|
    ensures var other := cfg.(zoneMappings := seq(|zones|, i requires 0 <= i < |zones| =>
                                 ZoneMappingConfig(cfg.zoneMappings[i].vSwitchId, zones[i])));
      && task.ResolverCallFor(other) == task.ResolverCallFor(cfg)
      && task.SpecOutcome(other) == task.SpecOutcome(cfg)
  {
    var other := cfg.(zoneMappings := seq(|zones|, i requires 0 <= i < |zones| =>
                        ZoneMappingConfig(cfg.zoneMappings[i].vSwitchId, zones[i])));
    assert VSwitchIds(other.zoneMappings) == VSwitchIds(cfg.zoneMappings);
  }
}
