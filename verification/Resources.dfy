/** The slice of the Kubernetes resource API that the fit logic reads. */
module Resources {
  import opened Prelude

  const LLMFIT_DOMAIN := "llmfit.ai"
  const NVIDIA_DOMAIN := "gpu.nvidia.com"
  const STANDARD_DOMAIN := "resource.kubernetes.io"

  const BASE_CLASS := LLMFIT_DOMAIN
  const GPU_CLASS := "gpu.llmfit.ai"
  const NPU_CLASS := "npu.llmfit.ai"
  const CPU_CLASS := "cpu.llmfit.ai"
  const NIC_CLASS := "nic.llmfit.ai"
  const NVIDIA_GPU_CLASS := "gpu.nvidia.com"
  const NVIDIA_MIG_CLASS := "mig.nvidia.com"

  const MIB: nat := 1024 * 1024
  const GIB: nat := 1024 * 1024 * 1024

  /** A device attribute carries exactly one of these values. */
  datatype Attribute = StrAttr(s: string) | IntAttr(i: int) | BoolAttr(b: bool) | VersionAttr(v: string)

  /** `attributes` holds the names published without a domain prefix, which
      belong to the publishing driver; `standard` holds the ones published under
      `resource.kubernetes.io`. Capacities are integral. */
  datatype Device = Device(
    name: string,
    attributes: map<string, Attribute>,
    standard: map<string, Attribute>,
    capacity: map<string, nat>,
    taint: Option<string>)

  datatype Slice = Slice(driver: string, pool: string, generation: nat, node: Option<string>, devices: seq<Device>)

  datatype Allocation = Allocation(driver: string, pool: string, device: string, request: string)

  datatype ResourceClaim = ResourceClaim(
    namespace: string,
    name: string,
    uid: string,
    allocation: Option<seq<Allocation>>)

  /** The resolver's answer: the numbers the fit inequality needs. */
  datatype Bounds = Bounds(model: string, quant: string, memoryGi: nat, minBandwidthGBs: nat, resolverVersion: string)

  /** Typed attribute reads; a missing or differently typed attribute reads as None. */
  function StrOf(d: Device, name: string): Option<string> {
    if name in d.attributes && d.attributes[name].StrAttr? then Some(d.attributes[name].s) else None
  }

  function IntOf(d: Device, name: string): Option<int> {
    if name in d.attributes && d.attributes[name].IntAttr? then Some(d.attributes[name].i) else None
  }

  function BoolOf(d: Device, name: string): Option<bool> {
    if name in d.attributes && d.attributes[name].BoolAttr? then Some(d.attributes[name].b) else None
  }

  function NodeOf(s: Slice): string {
    if s.node.Some? then s.node.value else ""
  }
}
