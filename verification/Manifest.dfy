/** Defaults and validation of a decoded node manifest (internal/config/manifest.go). */
module Manifest {
  import opened Wrappers
  import opened Schema

  datatype ManifestError = RoleRequired | UnknownRole(role: string) | HostnameRequired

  const ROLE_RELAY := "relay"
  const ROLE_EXIT := "exit"

  function OrDefault(value: string, fallback: string): string {
    if value == "" then fallback else value
  }

  function DefaultFirewall(fw: FirewallConfig): FirewallConfig {
    FirewallConfig(fw.allowPorts, true, OrDefault(fw.backend, "ufw"))
  }

  function DefaultNomad(nomad: NomadConfig): NomadConfig {
    NomadConfig(OrDefault(nomad.dataDir, "/opt/nomad/data"),
                OrDefault(nomad.bindAddr, "0.0.0.0"),
                OrDefault(nomad.logLevel, "INFO"))
  }

  function DefaultService(service: ServiceSpec): ServiceSpec {
    service.(count := if service.count == 0 then 1 else service.count,
             memoryMB := if service.memoryMB == 0 then 128 else service.memoryMB)
  }

  function DefaultServices(services: seq<ServiceSpec>): seq<ServiceSpec> {
    seq(|services|, i requires 0 <= i < |services| => DefaultService(services[i]))
  }

  /** What a manifest need not say. */
  lemma DefaultsSpelled(fw: FirewallConfig, services: seq<ServiceSpec>, nomad: NomadConfig, i: nat)
    requires i < |services|
    ensures DefaultFirewall(fw) == FirewallConfig(fw.allowPorts, true, if fw.backend == "" then "ufw" else fw.backend)
    ensures |DefaultServices(services)| == |services|
    ensures var s, d := services[i], DefaultServices(services)[i];
            && d.count == (if s.count == 0 then 1 else s.count)
            && d.memoryMB == (if s.memoryMB == 0 then 128 else s.memoryMB)
            && d.(count := s.count, memoryMB := s.memoryMB) == s
    ensures var d := DefaultNomad(nomad);
            && d.dataDir == (if nomad.dataDir == "" then "/opt/nomad/data" else nomad.dataDir)
            && d.bindAddr == (if nomad.bindAddr == "" then "0.0.0.0" else nomad.bindAddr)
            && d.logLevel == (if nomad.logLevel == "" then "INFO" else nomad.logLevel)
  {
  }

  /** The nodes that a manifest may describe. */
  predicate ValidNode(node: NodeConfig) {
    node.role in {"relay", "exit"} && node.hostname != ""
  }

  /** The error is about the node, and a wrong role comes before a missing hostname. */
  predicate Blames(error: ManifestError, node: NodeConfig) {
    match error
    case RoleRequired => node.role == ""
    case UnknownRole(role) => role == node.role && role !in {"", "relay", "exit"}
    case HostnameRequired => node.hostname == "" && node.role in {"relay", "exit"}
  }

  /** No manifest can be blamed for two things, and an invalid one is blamed for one. */
  lemma OneBlame(node: NodeConfig)
    ensures ValidNode(node) <==> forall error :: !Blames(error, node)
    ensures forall a, b :: Blames(a, node) && Blames(b, node) ==> a == b
  {
    if node.role !in {"", "relay", "exit"} {
      assert Blames(UnknownRole(node.role), node);
    } else if node.role == "" {
      assert Blames(RoleRequired, node);
    } else if node.hostname == "" {
      assert Blames(HostnameRequired, node);
    }
  }

  class NodeManifest {
    var node: NodeConfig
    var firewall: FirewallConfig
    var services: seq<ServiceSpec>
    var nomad: NomadConfig

    constructor (node: NodeConfig, firewall: FirewallConfig, services: seq<ServiceSpec>, nomad: NomadConfig)
      ensures this.node == node && this.firewall == firewall
      ensures this.services == services && this.nomad == nomad
    {
      this.node, this.firewall, this.services, this.nomad := node, firewall, services, nomad;
    }

    method ApplyDefaults()
      modifies this
      ensures node == old(node)
      ensures firewall == DefaultFirewall(old(firewall))
      ensures services == DefaultServices(old(services))
      ensures nomad == DefaultNomad(old(nomad))
      ensures firewall.allowSSH && firewall.allowPorts == old(firewall.allowPorts)
      ensures firewall.backend == if old(firewall.backend) == "" then "ufw" else old(firewall.backend)
    {
      if firewall.backend == "" {
        firewall := firewall.(backend := "ufw");
      }
      if nomad.dataDir == "" {
        nomad := nomad.(dataDir := "/opt/nomad/data");
      }
      if nomad.bindAddr == "" {
        nomad := nomad.(bindAddr := "0.0.0.0");
      }
      if nomad.logLevel == "" {
        nomad := nomad.(logLevel := "INFO");
      }
      for i := 0 to |services|
        invariant node == old(node) && nomad == DefaultNomad(old(nomad))
        invariant firewall == old(firewall).(backend := OrDefault(old(firewall).backend, "ufw"))
        invariant |services| == |old(services)|
        invariant forall j | 0 <= j < i :: services[j] == DefaultService(old(services)[j])
        invariant forall j | i <= j < |services| :: services[j] == old(services)[j]
      {
        if services[i].count == 0 {
          services := services[i := services[i].(count := 1)];
        }
        if services[i].memoryMB == 0 {
          services := services[i := services[i].(memoryMB := 128)];
        }
      }
      firewall := firewall.(allowSSH := true);
    }

    method Validate() returns (error: Option<ManifestError>)
      ensures error.None? <==> ValidNode(node)
      ensures error.Some? ==> Blames(error.value, node)
    {
      if node.role == "" {
        return Some(RoleRequired);
      }
      if node.role != ROLE_RELAY && node.role != ROLE_EXIT {
        return Some(UnknownRole(node.role));
      }
      if node.hostname == "" {
        return Some(HostnameRequired);
      }
      return None;
    }

    /** What Load does once the file has been decoded. */
    method Finish() returns (error: Option<ManifestError>)
      modifies this
      ensures error.None? <==> ValidNode(node)
      ensures error.Some? ==> Blames(error.value, node)
      ensures node == old(node)
      ensures firewall == DefaultFirewall(old(firewall))
      ensures services == DefaultServices(old(services))
      ensures nomad == DefaultNomad(old(nomad))
    {
      ApplyDefaults();
      error := Validate();
    }
  }
}
