/**
 The records decoded from the management API's `/ecgroup` listing, keeping
 only the fields the cleanup tool reads.
 */
module Types {

  /** One network instance of a VM; only its service network's start IP is used. */
  datatype Instance = Instance(ipStart: string)

  /** An Edge Connector VM (`ECVMs`). */
  datatype Vm = Vm(
    id: int,
    name: string,
    opStatus: string,
    status: seq<string>,
    lastUpgradeTime: int,
    instances: seq<Instance>)

  /** An Edge Connector group (`EcGroup`), owning its VMs in API order. */
  datatype Group = Group(
    id: int,
    name: string,
    region: string,
    platform: string,
    vms: seq<Vm>)
}
