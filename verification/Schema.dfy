/** The part of a node manifest that provisioning reads (internal/config/schema.go). */
module Schema {

  datatype PortMapping = PortMapping(host: int, container: int, protocol: string)

  datatype ServiceSpec = ServiceSpec(
    name: string,
    image: string,
    volumes: seq<string>,
    env: map<string, string>,
    ports: seq<PortMapping>,
    count: int,
    memoryMB: int)

  datatype FirewallConfig = FirewallConfig(allowPorts: seq<int>, allowSSH: bool, backend: string)

  datatype NodeConfig = NodeConfig(role: string, location: string, hostname: string)

  datatype NomadConfig = NomadConfig(dataDir: string, bindAddr: string, logLevel: string)
}
