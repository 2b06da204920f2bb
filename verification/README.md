# Ghost-Ship: a verified model

Ghost-Ship provisions a node from a manifest and migrates the state of one node to another. This
project models three parts of it, and the smaller provisioning sequence around the first, and
proves what they are for.

**Compose generation and deployment.** `Compose` prints a list of services as a docker compose
document, step by step, with a string builder; `ComposeParser` is an independent reader of such
documents; `HereDoc` reads the command that carries the document the way a shell does (section
2.7.4 of the POSIX Shell Command Language, IEEE Std 1003.1-2017). `Manifest` applies defaults and
validates. `Provisioner` runs hardening, deployment and the whole sequence over a session in which
an adversary decides how each command ends; a failed write may leave anything in the file, and the
read of the file, which hides a failing `cat`, may succeed with any text.
`SessionLog` says which commands a session consists of, and `FirewallSafety` and `DeployRuns` what holds
at every failure point and over any number of runs.

**Verified restore.** `Paths` resolves the target paths. `Restore` is the inspect, mkdir, write,
verify protocol of one file over a remote file system, in which a path is followed directory by
directory, every step may fail, `mkdir` may stop anywhere, and `tee` may leave any content and still
report success. `RestoreRuns` composes it into runs over many files and
into sequences of runs; `RestoreState` is the three loops over the maps, each in any iteration order.
`Certificates` is the capture on the source host and the way from host to host. `Encoding` and
`Text` hold the encodings and text routines the protocol relies on (base64 as in section 4 of
RFC 4648).

**Streamer and packing.** `Words`, `Gcm` and `Evp` define big-endian words, Galois/Counter Mode
(NIST SP 800-38D) and a cipher context that accepts input in pieces of any length, down to the byte.
`Streamer` is the LZ4 header, the one-shot and the chunked encryption, and the frame
`nonce || ciphertext || tag`. `Ownership` is the `Result` class and every program over it. `Archive`
is packing into archive entries and routing them back; `Transport` composes archive and frame.

Throughout, an operation that updates state in the source is a method over a class or a loop, proved
equal to a specification function, and the results about many steps, runs or orders are lemmas about
that function. Go's map iteration order is an unconstrained choice (`:|`) in the methods, and
lemmas about runs quantify over every order.

What is assumed, as hypotheses, types, parameters or contracts of the remote:

- the block cipher, the multiplication of GHASH and SHA-256 are arbitrary functions;
- LZ4 is any pair of functions for which compressed data is not empty, fits the documented bound, and
  decompresses to the input, and decompression stays within its room (`Streamer.Lawful`);
- the archive format is any encoding from which the packed entries can be read back
  (`Transport.Readable`), and decoding the YAML metadata is any partial function;
- a remote path is one word of the commands it stands in (the type `Paths.RemotePath`): the source does
  not quote paths, so for others it is not known what a command does (`RestoreState.SpaceSplits`);
- a length that a library takes as an int is not negative after the cast; lengths that are merely cut
  off by the cast are modelled (`Streamer.Passed`);
- what lies above a file or a directory is a directory (`Restore.Sound`, kept by every operation), and
  there are no symbolic links;
- a digest, a size or a certificate that a host reports without an error is the truth (the contracts of
  `Restore.Remote` and `Certificates.Source`). The read of the compose file need not be: results that
  need it say so (`DeployRuns.Truthful`).

Where the code does not do what its intent or its documentation says, the model follows the code, and
a lemma says when the property holds:

- The here-document is transparent if and only if no line of the document is `EOF`
  (`HereDoc.TransparentExactly`); a line break in a field can produce that line
  (`HereDoc.LineBreakCutsOff`), and then a run that has to write does not converge
  (`DeployRuns.Converges`).
- `decrypt_decompress` refuses what `compress_encrypt` made of more than 256 MiB, and the 32-bit header
  keeps only the low bits of a length of 4 GiB or more (`Streamer.RoundTripExactly`,
  `Streamer.DecompressedIs`).
- Unpacking prepends a nonce to data that begins with one already
  (internal/extractor/transport.go:167-169). `DoubledNonce` says what opening such data returns and gives
  an instance in which it is refused; `Archive` and `Transport` state routing for the frame with one
  nonce.
- The casts of lengths to int make one-shot encryption seal only a part of a longer message; streamed
  encryption of the same message agrees with it up to that length (`Streamer.EncryptBothWays`).
- Unpacking merges the decoded metadata into the maps, so names that only the metadata has survive;
  routing inverts packing if and only if there are none (`Archive.RoutingInverts`).
- A captured certificate whose domain contains a slash has no restore path
  (`Certificates.SamePath`).
- Restore depends on iteration order for some names: databases with a dot segment share a file
  (`RestoreState.DotSegmentsCollide`), and one with a double dot needs a directory that only another one
  may make (`RestoreState.ClimbingNames`). It does not if and only if the files of each map are pairwise
  compatible, which can be told from their paths (`RestoreState.RestoreConfluentExactly`).
- A misread compose file is rewritten although it holds the document, and one that is misread as the
  document is not written (`DeployRuns.WritesExactly`, `DeployRuns.Converges`).
- Content that is already on the target with the digest and size of a payload is taken for it; otherwise
  the payload arrives byte for byte (`RestoreState.JobArrives`).
- Hardening that is not asked for ssh access turns the firewall on without it in some session
  (`FirewallSafety.HardeningSafeExactly`); loading a manifest always asks for it.
- `RestoreSystemState` always reports success; the guarantees here are about each file, not about
  its result.

## Model

| member | source | states |
|---|---|---|
| Compose.BuildComposeProject | internal/provisioner/services.go:68-104 | with the builder, the set of names seen and the scale arguments updated in the loop, yields the first offence in list order, or the document and the sorted scale arguments |
| Compose.WriteComposeService | internal/provisioner/services.go:106-144 | appends exactly the lines of one service: head, then each optional section only when it has items |
| Compose.WriteEnvironment | internal/provisioner/services.go:115-125 | appends the environment section in sorted key order, whatever order the map is read in |
| Compose.WriteVolumes | internal/provisioner/services.go:127-132 | appends the volumes section, one item a line, in list order |
| Compose.WritePorts | internal/provisioner/services.go:134-143 | appends the ports section in list order; a blank protocol is left out |
| Compose.CollectKeys | internal/provisioner/services.go:117-121 | for every iteration order of the map, the result is the one sorted listing of its keys |
| Compose.ValidationExact | internal/provisioner/services.go:73-103 | succeeds if and only if names and images are non-empty, names are distinct and no service with a count above 1 has ports; otherwise the services before some one are acceptable, and the error names its first fault in the order name, image, duplicate, ports |
| Compose.KeyOrderIrrelevant | internal/provisioner/services.go:117-121 | any listing of an env map's keys sorts to the same list |
| Compose.DefaultCountInvisible | internal/config/manifest.go:39-42 | turning counts of 0 into 1 changes neither document, scale arguments nor error |
| Compose.ServicesBody | internal/provisioner/services.go:106-144 | for services without line breaks every line below the preamble is one indented line |
| ComposeParser.EnvItemInverts | internal/provisioner/services.go:123 | a printed variable reads back as the same key and value |
| ComposeParser.PortInverts | internal/provisioner/services.go:137-140 | a printed port reads back as the same numbers, negative ones included, and protocol, with a blank protocol dropped |
| ComposeParser.ServiceInverts | internal/provisioner/services.go:106-144 | the lines of a well-formed service, followed by those of other services, read back as that service and leave the others unread |
| ComposeParser.PrintParse | internal/provisioner/services.go:68-144 | reading a printed document gives back every service in order: name, image, positive memory limit, env map, volumes and ports |
| ComposeParser.RoundTrip | internal/provisioner/services.go:68-104 | the same for whatever generation accepts |
| ComposeParser.DocumentsDistinct | internal/provisioner/services.go:68-144 | two lists of well-formed services share a document if and only if they are equal after normalisation |
| ComposeParser.ScaleArgInverts | internal/provisioner/services.go:95-97 | an independent reader recovers name and count from a printed scale argument |
| ComposeParser.ScaleArgsExact | internal/provisioner/services.go:87-103 | the scale arguments are sorted, and read back as exactly the names and counts of the services with a count above 1 |
| ComposeParser.ProjectsDistinct | internal/provisioner/services.go:68-104 | two lists of well-formed services yield the same document and scale arguments if and only if they are equal after normalisation, replicas included |
| HereDoc.CommandLines | internal/provisioner/services.go:38 | the lines of the command are the redirection, the lines of the document and the delimiter |
| HereDoc.RedirectionParsed | internal/provisioner/services.go:38 | the first line redirects cat into the compose path, from a here-document under a quoted delimiter, so that its lines are taken literally |
| HereDoc.TransparentExactly | internal/provisioner/services.go:37-39 | a shell that parses the command writes the document plus one line break to its path if and only if no line of it is the delimiter |
| HereDoc.CutOff | internal/provisioner/services.go:38 | otherwise what is written ends right before an occurrence of the delimiter, short of the document |
| HereDoc.GeneratedSafe | internal/provisioner/services.go:68-144 | no line of a document generated from line-break-free services is the delimiter |
| HereDoc.LineBreakCutsOff | internal/provisioner/services.go:73-108 | some services pass validation and still produce the delimiter line |
| Manifest.NodeManifest.ApplyDefaults | internal/config/manifest.go:26-48 | every service is defaulted in place, the backend and nomad fields are filled when empty, ssh access is always set, and the node is untouched |
| Manifest.NodeManifest.Validate | internal/config/manifest.go:50-61 | no error if and only if the role is relay or exit and there is a hostname; an error is one that the node can be blamed for, and a wrong role comes before a missing hostname |
| Manifest.DefaultsSpelled | internal/config/manifest.go:26-48 | the default of every field, by value: ufw, ssh access, one replica, 128 MB, and the three of nomad |
| Manifest.OneBlame | internal/config/manifest.go:50-61 | no node can be blamed for two errors, and for none exactly when it is valid, so the error is determined |
| Manifest.NodeManifest.Finish | internal/config/manifest.go:10-24 | defaults are in place when validation answers, whatever it answers, and the answer is about the node as it was loaded |
| Provisioner.ApplyHardening | internal/provisioner/hardening.go:11-39 | for every session, issues ssh, ports in order and enable up to the first failure, and reports that failure |
| Provisioner.DeployServices | internal/provisioner/services.go:16-58 | for every session, in which the read of the file may also succeed with another text, the file and the command log end as specified: nothing for no services or a rejected list, write only when the trimmed texts differ, start last |
| Provisioner.WriteAndStart | internal/provisioner/services.go:37-57 | the write is issued exactly when the texts differ up to surrounding white space, and the start only after it succeeded |
| Provisioner.RunFullProvisioning | internal/provisioner/provisioner.go:11-39 | for every session, the stages run in order, docker is installed only when missing, and the first failing stage ends the run |
| SessionLog.DeployIssued | internal/provisioner/services.go:16-58 | a deployment issues mkdir, read, the here-document, spelled out, if the trimmed texts differ, and the start with the scale arguments, up to the first command that fails, which is its error; it succeeds exactly when all of them do, and issues nothing for no or rejected services |
| SessionLog.SuccessStarts | internal/provisioner/services.go:47-57 | after a success the last command of the log started the project with the scale arguments and worked, and no command of the run failed |
| SessionLog.HardeningIssued | internal/provisioner/hardening.go:11-39 | ssh if asked for, the ports in order, and enable, up to the first that fails; nothing for another backend |
| SessionLog.DockerInstalled | internal/provisioner/provisioner.go:14-26 | after a working update docker is looked up, and a host without it is given it next |
| SessionLog.ProvisionIssued | internal/provisioner/provisioner.go:11-39 | the whole log of a success before deployment: update, docker found or installed, ssh, ports, enable |
| FirewallSafety.HardeningSafe | internal/provisioner/hardening.go:11-39 | whatever fails, enable is issued only after ssh and every listed port were allowed; without an error the firewall is on |
| FirewallSafety.ProvisionSafe | internal/provisioner/provisioner.go:11-39 | at every failure point of the whole sequence, enable is issued only over an accessible host with nothing failed, and deployment commands only after enable succeeded |
| FirewallSafety.DeploySafe | internal/provisioner/services.go:16-58 | deploying over an enabled firewall keeps that order |
| FirewallSafety.WithoutFlagUnsafe | internal/provisioner/hardening.go:18-36 | without the access flag hardening does turn the firewall on over a host that has not let ssh in |
| FirewallSafety.HardeningSafeExactly | internal/provisioner/hardening.go:11-39 | hardening keeps the order in every session if and only if ssh access is asked for, was given before, or the backend is refused |
| FirewallSafety.ProvisionSafeExactly | internal/provisioner/provisioner.go:11-39 | the whole sequence, over a fresh session, keeps the order however commands end if and only if ssh access is asked for or the backend is refused |
| FirewallSafety.ProvisionDone | internal/provisioner/provisioner.go:28-38 | a success of the whole sequence means that the firewall was turned on and the deployment at the end succeeded |
| FirewallSafety.Land | cmd/gs/main.go:97-128 | loading and provisioning keep the order for every manifest and session, and an invalid manifest issues no command; when done, the firewall is on, the last command started the services, and for line-break-free services and truthful reads the compose file holds the document |
| DeployRuns.WritesExactly | internal/provisioner/services.go:27-45 | a run issues a write if and only if it gets as far as reading the file and what it hears is not the document, up to white space |
| DeployRuns.Idempotent | internal/provisioner/services.go:31-45 | over a file that already holds the document, and is read truthfully, no write is issued, however the run ends |
| DeployRuns.Rewritten | internal/provisioner/services.go:37-41 | a successful rewriting run leaves what the shell makes of the here-document |
| DeployRuns.WrittenHolds | internal/provisioner/services.go:37-39 | what is written compares equal to the document up to white space if and only if no line is the delimiter |
| DeployRuns.Converges | internal/provisioner/services.go:16-58 | after a success, whatever the read returned, the file holds the document if and only if it was taken to be there and was, or was written and no line is the delimiter |
| DeployRuns.OneLineConverges | internal/provisioner/services.go:16-58 | for line-break-free services a success leaves the document in place if the read was truthful or the file held the document before: a misread costs a rewriting at most |
| DeployRuns.StaysConverged | internal/provisioner/services.go:16-58 | once the file holds the document, any number of runs with any failures write nothing while reads are truthful |
| DeployRuns.ConvergesForGood | internal/provisioner/services.go:16-58 | for line-break-free services and truthful reads one success is followed only by runs that write nothing |
| DeployRuns.DeployTwice | internal/provisioner/services.go:16-58 | two runs of the program itself, each free in its map order: after a success the second writes nothing while reads are truthful, and if it succeeds it has started the services, and the document is in place even if its read was not truthful |
| Text.DecimalRoundTrip | internal/extractor/restore.go:95 | printing an integer in decimal and parsing it are inverse, and the text holds only digits and a sign |
| Text.DecimalDigits | internal/provisioner/services.go:96 | decimal digits, the last one first taken, and a minus sign in front |
| Text.TrimSpaceIs | internal/provisioner/services.go:37 | trimming leaves the text between its first and last character that is not white space |
| Text.FirstField | internal/extractor/restore.go:82-85 | the first field of a trimmed line is the word it begins with |
| Text.FieldsUnlines | internal/extractor/certs.go:23 | a listing with one word a line reads back as exactly its words |
| Text.SortUnique | internal/provisioner/services.go:121 | sorting yields the same list for every order of the same strings |
| Text.LeqFirstDifference | internal/provisioner/services.go:121 | the order of sorting is decided by the first character that differs, and a prefix comes first |
| Encoding.HexAt | internal/extractor/restore.go:28 | each byte is two lower-case hexadecimal digits, the high one first |
| Encoding.HexInjective | internal/extractor/restore.go:28 | equal hex texts come from equal digests |
| Encoding.Base64Bits | internal/extractor/restore.go:40 | every three bytes become the four characters of their groups of six bits, and one or two bytes at the end are padded |
| Encoding.Alphabet | internal/extractor/restore.go:40 | the alphabet is capitals, small letters, digits, plus and slash |
| Encoding.Base64RoundTrip | internal/extractor/restore.go:40 | decoding inverts encoding for payloads of every length |
| Encoding.Base64QuoteFree | internal/extractor/restore.go:40-45 | the encoding holds neither a single quote nor a line break |
| Restore.InspectionRecovers | internal/extractor/restore.go:80-100 | reading the digest line and the size gives back digest text and size; a size beyond int is refused |
| Restore.ReportsAlike | internal/extractor/restore.go:31 | two contents are reported alike if and only if digest and size agree |
| Restore.TransferLossless | internal/extractor/restore.go:40-45 | the word between the quotes of the write command decodes to the payload |
| Restore.TeeTargetIs | internal/extractor/restore.go:45 | the file that the pipeline writes is the one it is meant for |
| Restore.InspectRemoteFile | internal/extractor/restore.go:74-101 | yields digest and size of the file that the path leads to, or nothing when it is missing, a place on the way is not a directory, or a report fails |
| Restore.FoundIs | internal/extractor/restore.go:74-101 | in every sound file system what a path leads to is what can be opened there once the directories above the target exist |
| Restore.ProtocolSound | internal/extractor/restore.go:21-72 | whatever fails, and wherever the making of directories stops, files and directories stay sound, only directories above the target are made, and only an open target is written |
| Restore.RestoreBytesIfChanged | internal/extractor/restore.go:21-72 | for every pattern of failures, the remote, the result and the writes issued are those of the protocol, seen from the target alone: its content, whether a file blocks the directories above it, and whether it can be opened |
| Restore.WriteAndVerify | internal/extractor/restore.go:40-59 | the write and its verification, with whatever a disturbed write leaves |
| RestoreRuns.SingleRestore | internal/extractor/restore.go:21-72 | for a path that is one word of the command: success means digest and size are right; no other file changes; only directories above the target are made; a run that issues no write changes no file; a target that is right and can be inspected is left alone |
| RestoreRuns.DetoursKept | internal/extractor/restore.go:36-46 | the directories made for one file complete the way to another one only if one of that way's dead ends is among them |
| RestoreRuns.LookFrame | internal/extractor/restore.go:21-72 | restoring one file changes nothing that the restore of a file it spares can notice |
| RestoreRuns.RunPointwise | internal/extractor/extractor.go:237-271 | a file that is independent of the others in its run ends as if restored alone, however those interfere with each other |
| RestoreRuns.RunDirs | internal/extractor/restore.go:62-72 | the directories after such a run are those before and those that some single restore creates |
| RestoreRuns.Commute | internal/extractor/extractor.go:237-271 | two jobs that are compatible, by their paths or because one has nothing to write, may change places under any failures |
| RestoreRuns.Confluent | internal/extractor/extractor.go:237-271 | with failures that depend only on the path, any two orders of pairwise compatible files end in the same file system |
| RestoreRuns.ConfluentExactly | internal/extractor/extractor.go:239-244 | for a list of files with distinct paths, all orders agree for every file system and every failure plan if and only if the files are pairwise compatible |
| RestoreRuns.OrderMatters | internal/extractor/extractor.go:239-244 | one file of a map that does not spare another is enough for two orders of that map, between whatever is restored before and after it, to end differently from some file system under some failures |
| RestoreRuns.SharedTargetOrderMatters | internal/extractor/extractor.go:237-271 | two distinguishable payloads with one target end differently in the two orders |
| RestoreRuns.FailureFree | internal/extractor/restore.go:21-60 | without mkdir or tee failures a payload is in place afterwards if and only if it was before or its target is open |
| RestoreRuns.FailureFreeSucceeds | internal/extractor/restore.go:51-59 | without failures, and with an open target, a restore reports success, and unless digest and size were right before the payload is there byte for byte |
| RestoreRuns.ErrorsMean | internal/extractor/restore.go:36-56 | what each error says about the remote and about what failed |
| RestoreRuns.NotRewritten | internal/extractor/restore.go:30-34 | a target that holds its payload is not written again by a run |
| RestoreRuns.Monotone | internal/extractor/extractor.go:237-271 | over any number of runs with any mkdir and tee failures a correct target keeps its content and is never written |
| RestoreRuns.FailureFreeRun | internal/extractor/extractor.go:237-271 | a run makes a target whose own steps work correct if and only if it was correct or open |
| RestoreRuns.SettledRun | internal/extractor/extractor.go:237-271 | a run over correct targets issues no write and changes nothing |
| RestoreRuns.Converges | internal/extractor/extractor.go:237-271 | after one failure-free run the next run, in any order, is silent |
| RestoreState.RestoreSystemState | internal/extractor/extractor.go:234-271 | the run is the databases, then the certificates, then the xray configuration, each family in whatever order its map is visited, each restorable file once; no place that is not a target is written; and for plain names every non-empty file whose own steps work is found at the path of its map and name, spelled out, unless other content there is taken for it |
| RestoreState.RestoreDatabases | internal/extractor/extractor.go:237-245 | every database is restored once, to its own path |
| RestoreState.RestoreCertificates | internal/extractor/extractor.go:247-259 | every certificate with a restore path is restored once and the others are skipped |
| RestoreState.RestoreConfigs | internal/extractor/extractor.go:261-271 | of the configurations only the xray one is restored |
| RestoreState.BagDistinct | internal/extractor/extractor.go:237-271 | no two restores of one run have the same path, whatever the names |
| RestoreState.PlainSeparate | internal/extractor/extractor.go:237-297 | for names that are single segments and safe in a command, the targets are pairwise independent, across and within the three families |
| RestoreState.RestoreConfluentExactly | internal/extractor/extractor.go:237-271 | every order that a run can take leaves the same file system, whatever the target holds and whichever paths fail, if and only if the files of each map are pairwise compatible |
| RestoreState.RestoreConfluent | internal/extractor/extractor.go:237-271 | plain names are enough for that |
| RestoreState.DotSegmentsCollide | internal/extractor/extractor.go:239-241 | two spellings of one database name leave a file that depends on the order |
| RestoreState.ClimbingNames | internal/extractor/extractor.go:239-241 | a database name that climbs out of the directory makes the end depend on the order |
| RestoreState.SpaceSplits | internal/extractor/extractor.go:239-241 | a database name with a space is two words of the command, the first of which is the path of another database |
| RestoreState.RepeatedRestores | internal/extractor/extractor.go:237-271 | over any number of restores of one state a file that has arrived, and is independent of the others, is never written again |
| RestoreState.RestoreTwice | internal/extractor/extractor.go:234-271 | after a failure-free restore every non-empty file is correct and a second restore issues no write |
| RestoreState.JobArrives | internal/extractor/extractor.go:237-271 | a payload that is independent of the others and whose own steps work arrives byte for byte if and only if the restore does not take other content on the target for it |
| RestoreState.FilesArrive | internal/extractor/extractor.go:237-271 | databases to /opt/3x-ui/db, certificates with two segments to /etc/letsencrypt/live and the xray configuration to /etc/x-ui/xray.json, byte for byte, in every order and whatever else fails |
| RestoreState.OthersKept | internal/extractor/extractor.go:237-271 | no other place is written, whatever fails and whatever the names |
| Paths.CertificatePathInjective | internal/extractor/extractor.go:291-297 | no two accepted certificate names share a restore path |
| Paths.CertificatePathOf | internal/extractor/extractor.go:291-297 | domain and file are accepted exactly when the domain has no slash |
| Paths.WayClosed | internal/extractor/extractor.go:240 | following a path enters every directory from the one above it |
| Paths.TargetBelow | internal/extractor/restore.go:63 | the cleaned parent is on the way, and a target that can be written is a name below it |
| Paths.ResolveUp | internal/extractor/extractor.go:240 | a double dot makes the directory it leaves a dead end of the way |
| Paths.DatabasePathWord | internal/extractor/extractor.go:240 | a database path is one word of a command if and only if the name holds no special character |
| Paths.CertificatePathWord | internal/extractor/extractor.go:291-297 | the same for the restore path of a certificate |
| Paths.DatabaseLocation | internal/extractor/extractor.go:240 | where a plainly named database lands, its parent directory, and that the way has no detours |
| Paths.CertificateLocation | internal/extractor/extractor.go:291-297 | where a plainly named certificate file lands, its parent directory, and that the way has no detours |
| Paths.XrayLocation | internal/extractor/extractor.go:264-265 | where the xray configuration lands, its parent directory, and that the way has no detours |
| Certificates.ReadRemoteFile | internal/extractor/certs.go:115-127 | plain read first, then with sudo; an empty output counts as unreadable |
| Certificates.ExtractDomain | internal/extractor/certs.go:26-59 | one domain adds its files up to the first unreadable one, after whatever was captured before |
| Certificates.ExtractCertificates | internal/extractor/certs.go:12-63 | for every listing the captured map is that of its fields in order; a failed or blank listing captures nothing |
| Certificates.CaptureExact | internal/extractor/certs.go:26-59 | in terms of the host alone: of a listed domain that is not empty, a dot or a double dot, the certificate is captured if and only if it is there, not empty and readable with or without sudo, the key if and only if both are, the chain if and only if all three are, each with the content of its path |
| Certificates.CaptureOnly | internal/extractor/certs.go:26-59 | nothing else is captured: every name is that of one of the three files of such a domain |
| Certificates.CapturePrefix | internal/extractor/certs.go:34-56 | the captured files of a domain are a prefix of cert, privkey, fullchain |
| Certificates.SamePath | internal/extractor/extractor.go:291-297 | a captured name goes back to its source path if and only if the domain has no slash |
| Certificates.CertificatesArrive | internal/extractor/extractor.go:247-259 | the readable files of a listed slash-free domain, whatever else is listed, are found on the target at the path and with the bytes they have on the source, if their own steps work and other content there is not taken for them |
| Certificates.Migrate | cmd/gs/main.go:227-256 | the same for every readable certificate file of every listed slash-free domain, for extraction followed by restoring on the program itself, whatever the map orders and whatever becomes of other files |
| Words.WriteU32 | clib/streamer.cpp:22-27 | writes the big-endian form of the low 32 bits in place and leaves the rest of the buffer alone |
| Words.HeaderRoundTrip | clib/streamer.cpp:22-34 | the length header inverts for every 32-bit length |
| Words.HeaderLow | clib/streamer.cpp:22-42 | of a longer length only the low 32 bits are kept |
| Words.HeaderSpelled | clib/streamer.cpp:22-27 | the four bytes of the header, by value |
| Words.ReadU32Is | clib/streamer.cpp:29-34 | the number that four bytes are, by value |
| Words.ValueRoundTrip | clib/streamer.cpp:29-34 | writing what was read gives the same bytes |
| Gcm.GctrAt | clib/streamer.cpp:99 | each output byte of counter mode depends only on the input byte and key stream byte at its position |
| Gcm.GctrTwice | clib/streamer.cpp:140 | counter mode undoes itself |
| Gcm.GhashConcat | clib/streamer.cpp:105 | the hash of a text can be continued from the hash of its front |
| Gcm.HashOfIsGhash | clib/streamer.cpp:105 | the hash finished from its last block is GHASH over the padded ciphertext and the length block |
| Gcm.OpenExactly | clib/streamer.cpp:117-159 | decryption returns a plaintext if and only if the input is the encryption of it |
| Gcm.CounterIs | clib/streamer.cpp:97 | the i-th counter block of the data is the nonce followed by 2 + i |
| Gcm.BlocksDistinct | clib/streamer.cpp:97 | no two counter blocks of a message coincide, and none is that of the tag |
| Gcm.CiphertextIs | clib/streamer.cpp:97-99 | every byte of the ciphertext in terms of key, nonce and position |
| Gcm.TagIs | clib/streamer.cpp:102-105 | the tag in terms of key, nonce and ciphertext: GHASH under the encrypted zero block of the padded ciphertext and its length in bits, added to the encryption of the first counter block |
| Evp.CipherContext.Update | clib/streamer.cpp:256 | input of any length, ending anywhere in a block, is accounted for, and the output extends the encryption of the input before |
| Evp.CipherContext.Finish | clib/streamer.cpp:266-274 | the tag is that of the whole ciphertext, however it arrived |
| Evp.StreamStep | clib/streamer.cpp:256 | the buffered key stream block yields the byte for every position, across block ends |
| Evp.HashStep | clib/streamer.cpp:256 | one more ciphertext byte keeps whole blocks hashed and the rest pending |
| Streamer.Lz4Compress | clib/streamer.cpp:38-54 | header of the length, then the compressed data, in one buffer; a length that does not fit an int is refused or truncated as the cast does |
| Streamer.Lz4Decompress | clib/streamer.cpp:56-74 | short input is refused, and exactly the lengths above 256 MiB, before anything is decompressed; what is returned is no longer than the header says |
| Streamer.AesGcmEncrypt | clib/streamer.cpp:78-115 | wrong key or nonce sizes are refused; otherwise the result is the sealing, as in section 7.1, of the part of the plaintext that the cast of its length to int leaves |
| Streamer.AesGcmDecrypt | clib/streamer.cpp:117-159 | nothing is released unless the tag at the end is that of the part of the ciphertext that the cast to int leaves |
| Streamer.SizesRefused | clib/streamer.cpp:83-84 | keys that are not 32 bytes and nonces that are not 12 bytes long are refused, in this order, and texts without room for a tag |
| Streamer.Int32Is | clib/streamer.cpp:39-47 | the cast to int yields the one number in range that agrees modulo 2^32 |
| Streamer.PassedFrameWhole | clib/streamer.cpp:220-240 | a frame within the range of int is seen whole |
| Streamer.Process | clib/streamer.cpp:92-106 | one message through a fresh context yields counter-mode output and the tag of the ciphertext, in both directions |
| Streamer.Streamer.CompressEncrypt | clib/streamer.cpp:198-218 | the frame is the nonce followed by the sealed compressed data |
| Streamer.Streamer.DecryptDecompress | clib/streamer.cpp:220-240 | opens what follows the first 12 bytes under them, as far as the cast to int leaves it, and decompresses it |
| Streamer.Streamer.EncryptBegin | clib/streamer.cpp:242-251 | a new message starts, whatever came before |
| Streamer.Streamer.EncryptUpdate | clib/streamer.cpp:253-260 | what the cast to int leaves of a chunk extends the message, and the accumulated bytes stay its encryption |
| Streamer.Streamer.EncryptFinal | clib/streamer.cpp:262-285 | the result is the sealed message so far; without an open message it is an error |
| Streamer.EncryptChunks | clib/streamer.cpp:242-285 | for every split into chunks the accumulated bytes, tag included, are the sealing of what the chunks feed to the cipher, unless that exceeds the limit of the mode |
| Streamer.FedWhole | clib/streamer.cpp:253-260 | chunks within the range of int feed their concatenation |
| Streamer.EncryptBothWays | clib/streamer.cpp:78-115 | streamed and one-shot encryption of one message agree for every split, up to the longest message that one call takes |
| Streamer.UpdateAll | clib/streamer.cpp:253-260 | the update calls succeed together if and only if the whole message is within the limit of the mode |
| Streamer.DecompressedIs | clib/streamer.cpp:56-74 | decompressing compressed input of any length: the low 32 bits of the length decide |
| Streamer.FrameReturns | clib/streamer.cpp:198-240 | opening a frame returns the part of the input that the 32-bit length counts, or refuses it above 256 MiB, for inputs of every length |
| Streamer.FrameExactly | clib/streamer.cpp:38-54 | a frame is made if and only if the low 32 bits of the length are at most 0x7E000000 and LZ4 compresses the bytes they count; it is the nonce and the sealing of the four length bytes and the compressed data |
| Streamer.ShortFramed | clib/streamer.cpp:198-218 | whatever is at most 0x7E000000 bytes long is framed if LZ4 compresses it |
| Streamer.RoundTripExactly | clib/streamer.cpp:198-240 | whatever LZ4 takes comes back if and only if it is at most 256 MiB; the frame is 12 + 4 + compressed + 16 bytes long and begins with the nonce |
| Streamer.AcceptedFrames | clib/streamer.cpp:220-240 | a frame is accepted only if it was made under this key from what it decompresses |
| Streamer.FramesRefused | clib/streamer.cpp:220-240 | frames below 28 bytes are too short, and longer ones that nothing was sealed into fail by their tag, before anything is decompressed |
| DoubledNonce.SecondNonce | internal/extractor/transport.go:167-175 | what opening a frame with a second nonce in front returns: nothing, unless nonce and ciphertext together have the tag of the ciphertext alone, and then the decompression of their joint decryption |
| DoubledNonce.SecondNonceRefused | internal/extractor/transport.go:167-175 | an instance in which the frame is accepted and the same frame with a second nonce is refused |
| Ownership.Result.Move | clib/streamer.hpp:54-60 | the new result has the old value and the source is emptied of its buffer only |
| Ownership.Result.Free | clib/streamer.hpp:42-48 | an owned buffer is freed once and given up; without one nothing happens |
| Ownership.Result.MoveAssign | clib/streamer.hpp:61-70 | the old buffer is freed and the source's taken over; a self-move frees and empties |
| Ownership.StepKeeps | clib/streamer.hpp:18-70 | every operation keeps the one-to-one relation of live buffers and owners, and frees at most once |
| Ownership.SingleOwnership | clib/streamer.hpp:18-70 | after any program no buffer has two owners or was freed twice, and a buffer is freed if and only if it has no owner |
| Ownership.NoLeak | clib/streamer.hpp:50 | once all results are destroyed every buffer has been freed exactly once |
| Ownership.LengthsTravel | clib/streamer.hpp:28-70 | over all programs the length of a result is that with which its buffer was allocated, however often it moved, and a result without a buffer has length zero |
| Ownership.ErrorKept | clib/streamer.hpp:20-70 | a result keeps its code and message until it is assigned to or destroyed, also when it is freed or its buffer moves away |
| Ownership.ErrorFrom | clib/streamer.hpp:18-70 | where each value comes from; of a message at most 255 characters are kept |
| Ownership.RunProgram | clib/streamer.hpp:18-70 | any program run on the objects ends in the state its steps describe, without freeing what is not live |
| Archive.AddToTar | internal/extractor/transport.go:95-111 | for every order of a map, exactly one entry for each file is appended |
| Archive.Pack | internal/extractor/transport.go:78-130 | the metadata comes first, then one entry for each file of the four maps |
| Archive.NamesSpelled | internal/extractor/transport.go:83-130 | the metadata is STATE.yaml, every file is there under the name of its map, and there is nothing more |
| Archive.PrefixesExclusive | internal/extractor/transport.go:196-201 | a name has at most one of the four prefixes |
| Archive.Route | internal/extractor/transport.go:224-230 | for every order of the prefix table, the entry goes into the one map whose prefix it has |
| Archive.Unpack | internal/extractor/transport.go:189-231 | the read loop, entry by entry; metadata is merged, and metadata that cannot be decoded is an error |
| Archive.RoutedBack | internal/extractor/transport.go:95-101 | the entry of a file goes back to its map and name, whatever slashes or prefixes the name holds |
| Archive.RoutingSpelled | internal/extractor/transport.go:196-230 | an entry goes into the map that its first segment names, and any other is dropped |
| Archive.UnpackedIs | internal/extractor/transport.go:189-231 | for every write order and prefix order each unpacked map is the decoded one overridden by the packed one |
| Archive.RoutingInverts | internal/extractor/transport.go:189-231 | unpacking returns the packed maps if and only if the metadata can be decoded and brings no name that was not packed |
| Transport.ReceivedIs | internal/extractor/transport.go:71-240 | what a frame made of an archive of any length is unpacked from: the bytes that the 32-bit length counts, or nothing above 256 MiB |
| Transport.StateArrives | internal/extractor/transport.go:71-240 | a state packed, compressed and framed with one nonce, in an archive that fits the 32-bit length, arrives if and only if the archive is at most 256 MiB and the metadata can be decoded and brings no other names |
| Transport.Ship | internal/extractor/transport.go:71-240 | packing, framing, opening and unpacking on the program itself, in any map and prefix order: the packed maps come back under exactly that condition |

## Left out

- Restore.RestoreBytesIfChanged: symbolic links are not modelled; paths that are not one word of a command are
  excluded by their type, because what the unquoted command does with them is up to the shell; `sudo` is always
  used, as every caller does.
- Restore.WriteAndVerify: the same restrictions hold.
- RestoreState.RestoreSystemState: states with names that a shell would split or interpret are excluded; docker and nomad restoration after the three maps
  (internal/extractor/extractor.go:273-285) is left out: command strings without a deep invariant.
- RestoreState.RestoreConfluentExactly: failures depend on the path and the run, not on the position in the run.
- Certificates.ExtractCertificates: listings with names that a shell would interpret are excluded; the output of the directory listing is a parameter, because the remote
  pipeline that produces it is not modelled.
- Certificates.Migrate: state validation and the provisioning of the target, which stand between extraction and
  restoring (cmd/gs/main.go:233-249), are left out, and so is the extraction of everything but certificates.
- Transport.Ship: the second nonce that unpacking prepends (internal/extractor/transport.go:167-169) is left out;
  what a frame with it returns is stated by `DoubledNonce.SecondNonce`.
- Streamer.Streamer.CompressEncrypt: malloc failures are left out, and so is the case that an allocation of
  zero bytes returns null.
- Streamer.AesGcmEncrypt: lengths that the cast to int makes negative are left out, because the library leaves
  undefined what it does with them.
- Streamer.AesGcmDecrypt: the same.
- Streamer.Streamer.DecryptDecompress: the same.
- Streamer.Streamer.EncryptUpdate: the same.
- Streamer.EncryptChunks: the same.
- Streamer.UpdateAll: the same.
- Streamer.Lz4Decompress: the cast of the compressed length is not modelled, because what decryption returns always
  fits an int; the decoder is not asked to refuse data shorter than the header says; it only has to
  invert the compressor.
- Transport.StateArrives: archives of 4 GiB and more are the subject of `Transport.ReceivedIs`, which says what is
  left of them but not what the archive format reads there; encryption key and nonce are parameters.
- Archive.Pack: the tar format is a sequence of named entries, so names that end in a slash or hold a NUL byte, the
  missing trailer of the unclosed writer, and header write failures do not occur; of the state only the four
  maps of files are modelled, while host name, docker and nomad state travel in the metadata, which is opaque.
- Manifest.NodeManifest.Finish: reading and decoding the YAML file come before it and are not modelled; fields that
  nothing here reads are left out.
- ComposeParser.PrintParse: the reader knows the line structure and double-quoted scalars without escapes, not all
  of YAML; the replica count is not in the document but in the scale arguments.
- HereDoc.CutOff: after a here-document that was cut off the shell takes the remaining lines for commands, the last of
  them `EOF`; that makes the write fail as a rule, and what those commands do is not modelled.
- Provisioner.DeployServices: what the commands do on the host, other than to the compose file, is not modelled;
  error messages are values of a datatype and logging is dropped.
- Remote sessions, HTTP, Telegram, command-line parsing and the banner: input and output only.
- The C wrapper functions and streaming decryption (clib/streamer.cpp:287-321): they do not do what they are meant
  to do, and no property of the frame depends on them.
- Key derivation, and the internals of AES, GHASH multiplication, SHA-256 and LZ4: parameters.
- Extraction of databases, configurations, ssh keys and system information: single-branch code; databases
  are keyed by base name, so those four paths share one key.
- Docker and nomad extraction, and the audit package: fixed lists of commands and checks with only easy claims.
