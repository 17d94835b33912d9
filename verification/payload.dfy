/**
 The request body of the container-creation call: a constant JSON document
 whose only `%s` conversion is the value of the `Image` field. The image
 name is inserted as it is, without JSON escaping.
 */
module Payload {
  import opened Values
  import Formatting

  // The template is kept as named runs, one per line of its source text
  // (src/main/java/windockspkg/windocksplug/WinDocksBuilder.java:104-124), cut
  // where a JSON object opens or closes and grouped by object; `RunPlain`
  // states that `Run` holds no `%`.

  /** The template text before the `%s` conversion: the container
      configuration up to the `Image` value (lines 104-109). The template
      writes `User` and `AttachStdin` twice. */
  const PayloadPrefix: string :=
    IdentityRun + UserRun + StreamsRun + PortsRun + TerminalRun + ImageKeyRun

  const IdentityRun: string := "{\"Hostname\": \"\", " + "\"Domainname\": \"\", "
  const UserRun: string := "\"User\": \"\", " + "\"AttachStdin\": false, " + "\"User\": \"\","
  const StreamsRun: string := "\"AttachStdin\": false, " + "\"AttachStdout\": false, " + "\"AttachStderr\": false, "
  const PortsRun: string := "\"PortSpecs\": null, " + "\"ExposedPorts\": {},"
  const TerminalRun: string := "\"Tty\": false, " + "\"OpenStdin\": false, " + "\"StdinOnce\": false, " + "\"Env\": [], "
  const ImageKeyRun: string := "\"Cmd\": null, " + "\"Image\": \""

  lemma PayloadPrefixPlain()
    ensures '%' !in PayloadPrefix
  {
    IdentityRunPlain();
    UserRunPlain();
    StreamsRunPlain();
    PortsRunPlain();
    TerminalRunPlain();
    ImageKeyRunPlain();
  }

  lemma IdentityRunPlain() ensures '%' !in IdentityRun {}
  lemma UserRunPlain() ensures '%' !in UserRun {}
  lemma StreamsRunPlain() ensures '%' !in StreamsRun {}
  lemma PortsRunPlain() ensures '%' !in PortsRun {}
  lemma TerminalRunPlain() ensures '%' !in TerminalRun {}
  lemma ImageKeyRunPlain() ensures '%' !in ImageKeyRun {}

  /** The rest of the container configuration, after the `Image` value (lines 109-112). */
  const ConfigTail: string :=
    ImageEndRun + VolumeDriverRun + NetworkFlagsRun + LabelsRun

  const ImageEndRun: string := "\", " + "\"Volumes\": {},"
  const VolumeDriverRun: string := "\"VolumeDriver\": \"\", " + "\"WorkingDir\": \"\", " + "\"Entrypoint\": null, "
  const NetworkFlagsRun: string := "\"NetworkDisabled\": false, " + "\"MacAddress\": \"\","
  const LabelsRun: string := "\"OnBuild\": null, " + "\"Labels\": {}, "

  lemma ConfigTailPlain()
    ensures '%' !in ConfigTail
  {
    ImageEndRunPlain();
    VolumeDriverRunPlain();
    NetworkFlagsRunPlain();
    LabelsRunPlain();
  }

  lemma ImageEndRunPlain() ensures '%' !in ImageEndRun {}
  lemma VolumeDriverRunPlain() ensures '%' !in VolumeDriverRun {}
  lemma NetworkFlagsRunPlain() ensures '%' !in NetworkFlagsRun {}
  lemma LabelsRunPlain() ensures '%' !in LabelsRun {}

  /** The `HostConfig` object, first part: binds, resource limits, ports
      (lines 112-117). */
  const HostConfigResources: string :=
    HostConfigOpenRun + ContainerIdFileRun + MemoryRun + CpusetRun + BlkioRun + PortBindingsRun

  const HostConfigOpenRun: string := "\"HostConfig\": {" + "\"Binds\": null, "
  const ContainerIdFileRun: string := "\"ContainerIDFile\": \"\", " + "\"LxcConf\": [],"
  const MemoryRun: string := "\"Memory\": 0, " + "\"MemorySwap\": 0, " + "\"CpuShares\": 0, " + "\"CpuPeriod\": 0, "
  const CpusetRun: string := "\"CpusetCpus\": \"\", " + "\"CpusetMems\": \"\", " + "\"CpuQuota\": 0,"
  const BlkioRun: string := "\"BlkioWeight\": 0, " + "\"OomKillDisable\": false, " + "\"Privileged\": false, "
  const PortBindingsRun: string := "\"PortBindings\": {}, " + "\"Links\": null, " + "\"PublishAllPorts\": false,"

  lemma HostConfigResourcesPlain()
    ensures '%' !in HostConfigResources
  {
    HostConfigOpenRunPlain();
    ContainerIdFileRunPlain();
    MemoryRunPlain();
    CpusetRunPlain();
    BlkioRunPlain();
    PortBindingsRunPlain();
  }

  lemma HostConfigOpenRunPlain() ensures '%' !in HostConfigOpenRun {}
  lemma ContainerIdFileRunPlain() ensures '%' !in ContainerIdFileRun {}
  lemma MemoryRunPlain() ensures '%' !in MemoryRun {}
  lemma CpusetRunPlain() ensures '%' !in CpusetRun {}
  lemma BlkioRunPlain() ensures '%' !in BlkioRun {}
  lemma PortBindingsRunPlain() ensures '%' !in PortBindingsRun {}

  /** The `HostConfig` object, second part: DNS, devices, network mode,
      namespaces, capabilities (lines 118-121). */
  const HostConfigNetwork: string :=
    DnsRun + DevicesRun + NamespacesRun + CapDropRun

  const DnsRun: string := "\"Dns\": null, " + "\"DnsSearch\": null, " + "\"ExtraHosts\": null, " + "\"VolumesFrom\": null, "
  const DevicesRun: string := "\"Devices\": [], " + "\"NetworkMode\": \"bridge\","
  const NamespacesRun: string := "\"IpcMode\": \"\", " + "\"PidMode\": \"\", " + "\"UTSMode\": \"\", " + "\"CapAdd\": null, "
  const CapDropRun: string := "\"CapDrop\": null, "

  lemma HostConfigNetworkPlain()
    ensures '%' !in HostConfigNetwork
  {
    DnsRunPlain();
    DevicesRunPlain();
    NamespacesRunPlain();
    CapDropRunPlain();
  }

  lemma DnsRunPlain() ensures '%' !in DnsRun {}
  lemma DevicesRunPlain() ensures '%' !in DevicesRun {}
  lemma NamespacesRunPlain() ensures '%' !in NamespacesRun {}
  lemma CapDropRunPlain() ensures '%' !in CapDropRun {}

  /** The `RestartPolicy` object inside `HostConfig` (lines 121-122). */
  const RestartPolicy: string :=
    RestartNameRun + RetryCountRun

  const RestartNameRun: string := "\"RestartPolicy\": {" + "\"Name\": \"no\","
  const RetryCountRun: string := "\"MaximumRetryCount\": 0}, "

  lemma RestartPolicyPlain()
    ensures '%' !in RestartPolicy
  {
    RestartNameRunPlain();
    RetryCountRunPlain();
  }

  lemma RestartNameRunPlain() ensures '%' !in RestartNameRun {}
  lemma RetryCountRunPlain() ensures '%' !in RetryCountRun {}

  /** The `HostConfig` fields between the restart policy and the logging
      configuration (lines 122-123). */
  const HostConfigSecurity: string :=
    SecurityOptRun + UlimitsRun

  const SecurityOptRun: string := "\"SecurityOpt\": null, " + "\"ReadonlyRootfs\": false, "
  const UlimitsRun: string := "\"Ulimits\": null, "

  lemma HostConfigSecurityPlain()
    ensures '%' !in HostConfigSecurity
  {
    SecurityOptRunPlain();
    UlimitsRunPlain();
  }

  lemma SecurityOptRunPlain() ensures '%' !in SecurityOptRun {}
  lemma UlimitsRunPlain() ensures '%' !in UlimitsRun {}

  /** The `LogConfig` object inside `HostConfig` (lines 123-124). */
  const LogConfig: string :=
    LogConfigOpenRun + LogTypeRun

  const LogConfigOpenRun: string := "\"LogConfig\": {"
  const LogTypeRun: string := "\"Type\": \"\", " + "\"Config\": {}}, "

  lemma LogConfigPlain()
    ensures '%' !in LogConfig
  {
    LogConfigOpenRunPlain();
    LogTypeRunPlain();
  }

  lemma LogConfigOpenRunPlain() ensures '%' !in LogConfigOpenRun {}
  lemma LogTypeRunPlain() ensures '%' !in LogTypeRun {}

  /** The last `HostConfig` field, then the closing braces of `HostConfig`
      and of the document (line 124). */
  const HostConfigClose: string :=
    CgroupParentRun

  const CgroupParentRun: string := "\"CgroupParent\": \"\"}}"

  lemma HostConfigClosePlain()
    ensures '%' !in HostConfigClose
  {
    CgroupParentRunPlain();
  }

  lemma CgroupParentRunPlain() ensures '%' !in CgroupParentRun {}

  /** The template text after the `%s` conversion. */
  const PayloadSuffix: string :=
    ConfigTail
    + HostConfigResources
    + HostConfigNetwork
    + RestartPolicy
    + HostConfigSecurity
    + LogConfig
    + HostConfigClose

  /** None of the template's literal runs contains a `%`: its one `%s` is
      its only conversion. */
  lemma LiteralRunsHaveNoPercent()
    ensures '%' !in PayloadPrefix && '%' !in PayloadSuffix
  {
    PayloadPrefixPlain();
    ConfigTailPlain();
    HostConfigResourcesPlain();
    HostConfigNetworkPlain();
    RestartPolicyPlain();
    HostConfigSecurityPlain();
    LogConfigPlain();
    HostConfigClosePlain();
  }

  /** `String.format(payloadTemplate, image)`, the template being the
      prefix, one `%s`, and the suffix: the fixed prefix, the image name
      character for character, the fixed suffix. */
  function CreatePayload(image: string): (p: string)
    ensures p == PayloadPrefix + image + PayloadSuffix
  {
    LiteralRunsHaveNoPercent();
    Formatting.FormatOne(PayloadPrefix, PayloadSuffix, NonNull(image))
  }

  /** The text between `a` and `b` in `p`, if `p` starts with `a` and ends
      with `b` without overlap. */
  function Between(p: string, a: string, b: string): (r: Option<string>)
    ensures r.Some? ==> a + r.value + b == p
    ensures r.Some? ==> p[..|a|] == a && p[|p| - |b|..] == b
  {
    if |a| + |b| <= |p| && p[..|a|] == a && p[|p| - |b|..] == b
    then
      assert p == p[..|a|] + p[|a|..|p| - |b|] + p[|p| - |b|..];
      Some(p[|a|..|p| - |b|])
    else None
  }

  lemma {:induction false} BetweenOf(a: string, x: string, b: string)
    ensures Between(a + x + b, a, b) == Some(x)
  {
    var p := a + x + b;
    assert p[..|a|] == a;
    assert p[|p| - |b|..] == b;
    assert p[|a|..|p| - |b|] == x;
  }

  /** The text in the `Image` slot of a payload, if it has the template's shape. */
  function ImageSlot(p: string): Option<string> {
    Between(p, PayloadPrefix, PayloadSuffix)
  }

  /** The image can be read back out of the payload built from it. */
  lemma ImageSlotRoundTrip(image: string)
    ensures ImageSlot(CreatePayload(image)) == Some(image)
  {
    BetweenOf(PayloadPrefix, image, PayloadSuffix);
  }

  /** Different images give different payloads. */
  lemma PayloadInjective(image1: string, image2: string)
    requires image1 != image2
    ensures CreatePayload(image1) != CreatePayload(image2)
  {
    ImageSlotRoundTrip(image1);
    ImageSlotRoundTrip(image2);
  }

  /** Two payloads agree outside the `Image` slot: same prefix, same
      suffix, and their lengths differ by the lengths of their images. */
  lemma PayloadsDifferOnlyInImage(image1: string, image2: string)
    ensures var p1, p2 := CreatePayload(image1), CreatePayload(image2);
      && p1[..|PayloadPrefix|] == p2[..|PayloadPrefix|]
      && p1[|p1| - |PayloadSuffix|..] == p2[|p2| - |PayloadSuffix|..]
      && |p1| - |image1| == |p2| - |image2|
  {
    SameFrame(PayloadPrefix, image1, image2, PayloadSuffix);
  }

  /** `a + x + b` and `a + y + b` share their first `|a|` and last `|b|`
      characters. */
  lemma {:induction false} SameFrame(a: string, x: string, y: string, b: string)
    ensures var p1, p2 := a + x + b, a + y + b;
      && p1[..|a|] == p2[..|a|]
      && p1[|p1| - |b|..] == p2[|p2| - |b|..]
      && |p1| - |x| == |p2| - |y|
  {
    BetweenOf(a, x, b);
    BetweenOf(a, y, b);
  }
}
