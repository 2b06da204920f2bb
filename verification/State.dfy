/** The captured state of a node, as far as it travels in files
    (internal/extractor/extractor.go:14-27). */
module State {
  import opened Encoding

  /** The four kinds of captured files. */
  datatype Family = Certificates | Databases | Configs | SSHKeys

  type Files = map<string, Bytes>

  /** The maps from names to contents. */
  datatype SystemState = SystemState(certificates: Files, databases: Files, configs: Files, sshPublicKeys: Files) {
    function Of(family: Family): Files {
      match family
      case Certificates => certificates
      case Databases => databases
      case Configs => configs
      case SSHKeys => sshPublicKeys
    }

    function With(family: Family, files: Files): SystemState {
      match family
      case Certificates => this.(certificates := files)
      case Databases => this.(databases := files)
      case Configs => this.(configs := files)
      case SSHKeys => this.(sshPublicKeys := files)
    }
  }

  const NOTHING := SystemState(map[], map[], map[], map[])
}
