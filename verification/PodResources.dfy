/** What the kubelet reports about pods, as the PodResources API delivers it. A missing topology is an empty node
    list. */
module PodResources {

  datatype Device = Device(resource: string, ids: seq<string>, nodes: seq<int>)
  datatype MemoryBlock = MemoryBlock(kind: string, size: nat, nodes: seq<int>)
  datatype Container = Container(name: string, devices: seq<Device>, memory: seq<MemoryBlock>, cpus: seq<int>)
  datatype Pod = Pod(namespace: string, name: string, containers: seq<Container>)

  const CPU := "cpu"
  const MEMORY := "memory"
  const HUGEPAGES_PREFIX := "hugepages-"

  /** Resources counted in bytes rather than in pieces. */
  predicate IsMemory(resource: string) {
    resource == MEMORY || HUGEPAGES_PREFIX <= resource
  }

  predicate IsNative(resource: string) {
    resource == CPU || IsMemory(resource)
  }
}
