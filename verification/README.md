# A verified model of facts-ca

facts-ca is a small certificate authority that speaks the Puppet CA v1 protocol, with an agent
library that enrols against it. This project models both and proves, for all inputs, all
runs and all patterns of failed file operations, what they keep.

**The CA** (`CaStore.dfy`) is a state machine over the cadir: pending requests, signed certificates,
the serial file, the CRL, the inventory and the server's own pair. Each section that runs under the
mutex is one step. A submission is a thread with its snapshot: first section, second section, policy
verdict, third section, and any number of them interleave with every other operation. Every file
operation can fail on its own; a failed write leaves the old content. `CaInvariants`,
`CaIssuance`, `CaApproval`, `CaSimulation`, `CaRevocation`, `CaFaults` and `CaProvenance` prove what
holds over whole runs, `CaAnswers` what each operation answers and when, `CaLeaf` what a certificate
holds, `CaOperations` what operations do to each other. `CaServer.dfy` is the object
itself, a class whose methods change its fields as the code does; each method is proved to be the step
of the same name, so that all of this holds of it. `Listing` covers the status pages.

**The agent** (`Agent.dfy`, `SslDir.dfy`, `Polling.dfy`) is a class over an ssldir with its own
failures and an arbitrary server. `AgentAnswers` proves what each stage answers and writes,
`AgentIdentity` what every returned identity is good for.
`Convergence` puts agent and CA together as one step system in which a run of the agent may stop
anywhere, and `Enrolment` adds an honest CA.

**The formats** are concrete: `Extensions`, `Oids`, `Der` (trusted facts), `Policy` (what an autosign
policy sees), `Pki` (SANs and lifetimes), `Fingerprints`, `Numerals` (the serial file, OID arcs),
`Attributes` (csr_attributes.yaml), on top of `Text` and `Sorting`.

`Certificates.Library` holds everything cryptographic and every PEM and X.509 parser as uninterpreted
functions. `Lawful` states what little is assumed of them: decoders invert encoders, an empty text
holds no certificate, and a CSR that parses shows the template it was created from. CSR creation is
a function of its inputs, as PKCS #1 v1.5 signatures are.

## Where the code does less than it seems to

Each of these is stated as an exact condition, or with a lemma that exhibits it.

- A name is pending or signed but not both, and `Sign` never overwrites a certificate, unless the Stat
  in the second section of a submission fails or the removal of the fulfilled request fails; the code
  ignores both errors (`CaIssuance.SignDisjointExact`, `CaIssuance.StoreDisjointExact`,
  `CaFaults.LostRemovalReplaces`).
- A revocation that cannot read the CRL writes a new one with a single entry
  (`CaRevocation.CrlAppendsExact`).
- The server's certificate and key can be left not matching by one unreadable file followed by one
  failed write (`CaFaults.ServerPairExact`).
- Extension values of 2^31 bytes and more are encoded but not decoded (`Der.ValueRoundTrip`).
- An agent that cannot read its private key replaces it, and its next CSR is then refused
  (`SslDir.KeyKeptExact`, `Enrolment.ResubmissionExact`). The comment in the code says the key is
  generated on first use.
- For the certname "ca" the certificate is written over the CA certificate
  (`AgentIdentity.EnrolledHolds`, `AgentIdentity.CaNameOverwrites`). facts-ca itself serves its own
  certificate under that name, which such an agent does not accept (`Convergence.CaNameExact`,
  `Convergence.CaNameNeverEnrols`).
- A stored CA whose second read fails counts as missing: another can be fetched and written in its
  place (`AgentIdentity.CaReplacedExact`, `AgentIdentity.StoredCaLost`).
- A pin constrains the first certificate of a CA text only, while all of them become roots
  (`AgentIdentity.PinnedRootExact`, `AgentIdentity.OtherRootAccepted`).
- An operator who signs with extensions of their own adds trusted facts to those the request asked
  for (`Enrolment.FactsSurvive`).
- Address SANs are not de-duplicated, and an address certname is added again at signing
  (`Pki.RequestedSansSurvive`).

## Model

| member | source | states |
|---|---|---|
| CaInvariants.StepKeepsInv | internal/castore/castore.go:199-402 | every locked section, verdict and admin operation, whatever fails in it, keeps serials, requests, certificates, CRL and inventory in order |
| CaInvariants.RunInv | internal/castore/castore.go:356-371 | in every run of any number of interleaved submissions, signings, server certificates and reopenings, all serials the CA key signs are distinct, increase in signing order, are at least 2 and below the stored counter; inventory serials are a strictly increasing selection of them; CRL serials are among them, none twice; each filed certificate has its own serial and its file name as CN; each pending request passed the checks for its name |
| CaInvariants.SignShape | internal/castore/castore.go:345-374 | signing succeeds if and only if the request is there, has an RSA key and no operation before the best-effort ones fails; a signed leaf has the stored number, the name and key of the pending CSR, and as extensions the ones the operator adds followed by the allowed ones of the CSR; the counter moves by at most one, and does whenever a leaf was signed |
| CaInvariants.ServerShape | internal/castore/castore.go:613-664 | the server leaf draws from the same counter in the same way and touches no request, certificate or CRL |
| CaInvariants.InitialInv | internal/castore/castore.go:120-141 | a fresh cadir is in order |
| CaInvariants.DrawShape | internal/castore/castore.go:523-537 | a draw yields the number in the file and leaves its successor, or fails and leaves the file alone, the first exactly when neither file operation fails |
| CaFaults.DrawsCount | internal/castore/castore.go:128-128 | after any sequence of attempts with any failures, the k-th successful draw from a new cadir is 2 + k and the file holds 2 plus their number |
| CaIssuance.SignDisjointExact | internal/castore/castore.go:345-374 | signing leaves a name both pending and signed if and only if it can sign and the ignored removal of the request fails |
| CaIssuance.StoreDisjointExact | internal/castore/castore.go:226-258 | the second section of a submission does so if and only if its Stat fails for a signed name or the removal after an autosign fails |
| CaIssuance.OrderlyStep | internal/castore/castore.go:199-402 | one step without those two failures keeps the names pending and the names signed apart |
| CaIssuance.OrderlyRun | internal/castore/castore.go:199-402 | in every run without those two failures, whatever else fails, no name is both pending and signed |
| CaIssuance.StepLogs | internal/castore/castore.go:345-374 | a step files, overwrites or removes at most one certificate, and the history records which |
| CaIssuance.RunBalances | internal/castore/castore.go:345-374 | in every run, whatever fails, certificates issued for a name = removed by Clean + overwritten + on file |
| CaIssuance.NothingReplaced | internal/castore/castore.go:331-374 | in runs without those two failures no signature overwrites a certificate |
| CaIssuance.AtMostOneLive | internal/castore/castore.go:226-374 | in those runs the issuances for a name are its removals by Clean, plus one if it is signed now, and a signed name is not pending |
| CaIssuance.StoreLogs | internal/castore/castore.go:226-258 | the second section answers true exactly when this call issued a certificate, from its own CSR; what it stores and files in each case |
| CaIssuance.FinishLogs | internal/castore/castore.go:264-285 | the section after the policy answers true exactly when this call issued, and then the very CSR the thread carries was pending and the name unsigned |
| CaIssuance.SignLogs | internal/castore/castore.go:331-374 | an operator signature files a certificate for the pending request, with the extensions the operator added in front, or changes neither requests nor certificates |
| CaIssuance.OtherSteps | internal/castore/castore.go:300-402 | steps that sign nothing file nothing; only Clean and DeleteCSR take a request away, only Clean a certificate |
| CaFaults.LostRemovalReplaces | internal/castore/castore.go:373-373 | if the fulfilled request cannot be removed, signing again succeeds and overwrites the certificate with one of a higher serial |
| CaApproval.ApprovalExact | internal/castore/castore.go:259-284 | in every run, a certificate issued after a policy verdict comes from the byte-identical CSR that an earlier verdict approved for the same submission, its facts are the extension requests the policy was shown, and its DNS names and addresses are among the names the policy was shown and the certname |
| CaApproval.OneIssuancePerApproval | internal/castore/castore.go:259-284 | a submission issues at most as often as it was approved |
| CaApproval.RequestStable | internal/castore/castore.go:231-246 | no step exchanges a pending CSR for a different one: it stays or is removed |
| CaApproval.ReplacedAfterRemoval | internal/castore/castore.go:231-246 | in any run, between two states in which different CSRs of one name are pending there is one in which none is |
| CaApproval.StoreRequests | internal/castore/castore.go:231-246 | the second section stores its CSR only where there was none or the same |
| CaSimulation.StepSimulated | internal/castore/castore.go:199-285 | each locked section of a submission, and each other operation, performs its atomic actions: put if absent or identical and unsigned, issue only while that CSR is pending and the name unsigned, withdraw, drop |
| CaSimulation.RunSimulated | internal/castore/castore.go:199-285 | every interleaving of any number of submissions with all other operations (without the two ignored failures) ends where the atomic CA ends |
| CaSimulation.SubmissionActions | internal/castore/castore.go:199-285 | the sections of a submission stand for those two actions only, and add no extension to those of the CSR; the snapshot and every verdict stand for none |
| CaRevocation.CrlAppendsExact | internal/castore/castore.go:378-402 | a step keeps the old CRL as a prefix of the new one if and only if it is not a revocation that fails to read a CRL it then overwrites |
| CaRevocation.CrlOnlyGrows | internal/castore/castore.go:378-402 | in runs where the CRL can be read it only grows, by appending |
| CaRevocation.RevokedForever | internal/castore/castore.go:557-583 | a serial once on the CRL stays there, through Clean and re-issue |
| CaRevocation.RevokePrecise | internal/castore/castore.go:378-402 | a revocation marks its name revoked, changes the status of no other name, and repeating it changes nothing |
| CaRevocation.IssuedFresh | internal/castore/castore.go:356-371 | a newly filed certificate has the counter as its serial, which no CRL entry has |
| CaRevocation.ReissuedReportsSigned | internal/castore/castore.go:590-608 | a name revoked, cleaned and issued again reports signed, while the old serial stays on the CRL |
| CaFaults.ServerPairExact | internal/castore/castore.go:613-664 | ServerTLSCert leaves the stored certificate and key matching if and only if it is not the case that the stored pair was unreadable, a new certificate was written and its key was not; what it returns always matches |
| CaFaults.PairUntouched | internal/castore/castore.go:199-402 | no other step touches the pair |
| CaFaults.PairInEveryRun | internal/castore/castore.go:613-664 | in every run without that double failure the stored pair matches |
| CaOperations.CleanExact | internal/castore/castore.go:590-608 | Clean succeeds exactly for a name that is pending or signed when both removals do; then the name is unknown; no other name, no CRL entry and no counter is touched |
| CaOperations.DeleteUndoesStore | internal/castore/castore.go:231-311 | DeleteCSR after a submission that stored a first request restores the cadir exactly |
| CaOperations.ResubmittedOnce | internal/castore/castore.go:231-246 | sending the same request again gets the same answer and leaves the cadir as it was |
| CaOperations.RevokeAndCleanFree | internal/castore/castore.go:378-608 | after Revoke and Clean a name is unknown, its serial is on the CRL, and a valid request for it is taken in again |
| CaOperations.ServerReused | internal/castore/castore.go:624-636 | the pair one call issued is what every later call returns, for any names, signing and changing nothing, while it can be read |
| CaOperations.ServerNames | internal/castore/castore.go:637-664 | a server leaf has the first name as CN and exactly the trimmed, distinct, non-address names given as DNS names, no extensions and the generated key |
| CaAnswers.SigningExact | internal/castore/castore.go:345-374 | for every failure, whether a signature succeeds, which error it answers, whether a leaf was made, and that a number is used up exactly when it was drawn |
| CaAnswers.SignedEffect | internal/castore/castore.go:367-374 | a success files the certificate, appends its inventory line and takes the request away, the last two unless they fail; an error changes no request, certificate or inventory line; nothing else ever changes |
| CaAnswers.SignExact | internal/castore/castore.go:331-374 | Sign answers success if and only if the name is pending with an RSA key and no operation before the best-effort ones fails; the name then has a certificate from that request; an unknown name is not found |
| CaAnswers.ValidateExact | internal/castore/castore.go:204-224 | the checks of a submission pass if and only if the name is valid, the CSR parses, is signed and carries it, and every extension can be shown to the policy there is; which error each other case answers |
| CaAnswers.BeginExact | internal/castore/castore.go:200-202 | a snapshot is the configuration as it stands; other submissions keep theirs |
| CaAnswers.StoreExact | internal/castore/castore.go:226-258 | when the second section answers signed, unsigned, goes on to the policy, or fails, by the snapshot and the failures alone; what is pending, signed and in flight afterwards |
| CaAnswers.VerdictExact | internal/castore/castore.go:261-263 | an approval lets the submission go on, anything else ends it unsigned; no file changes |
| CaAnswers.FinishExact | internal/castore/castore.go:265-284 | the third section answers signed, and the name has a certificate from that CSR, if and only if it can see that the CSR is still pending and the name unsigned, the key is RSA and nothing before the best-effort operations fails; it answers unsigned exactly when it sees otherwise, and fails in the other cases |
| CaAnswers.SubmissionSigned | internal/castore/castore.go:199-285 | a valid request for an unsigned name, submitted to an autosigning CA with nothing failing, and approved if there is a policy, is answered signed and issued from that CSR |
| CaAnswers.RevokeExact | internal/castore/castore.go:378-402 | Revoke succeeds if and only if the certificate is there, can be read, and is listed or can be; the serial, dated now, is then behind the CRL as read, unless it was there; unknown and invalid names are not found; an error changes nothing |
| CaAnswers.DeleteExact | internal/castore/castore.go:300-311 | DeleteCSR succeeds for exactly the pending names whose removal does, and takes that request and nothing else |
| CaAnswers.CleanParts | internal/castore/castore.go:590-608 | each of the two files goes unless its own removal fails; a failed removal is reported before an unknown name |
| CaAnswers.CallsAnswer | internal/castore/castore.go:300-608 | Revoke, Clean and DeleteCSR answer what happened; only the removal of a certificate is remembered |
| CaAnswers.ConfigurationExact | internal/castore/castore.go:144-182 | SetAutosignAll sets the flag and nothing else; Open takes the new configuration and ends what was in flight |
| CaAnswers.ServerExact | internal/castore/castore.go:613-664 | ServerTLSCert succeeds if and only if a stored pair can be read or every operation of minting one succeeds; a new pair is the one returned, stored and listed; a read one changes nothing |
| CaAnswers.ServerAnswers | internal/castore/castore.go:613-664 | what ServerTLSCert answers, and that a minted serial is remembered |
| CaAnswers.InventoryComplete | internal/castore/castore.go:540-551 | in every run in which no line fails to be appended, the inventory lists every certificate ever issued for a request |
| CaAnswers.ValidNamesAreFiles | internal/castore/castore.go:35-35 | a valid certname has 1 to 255 characters, no separator, no two dots in a row, and is neither the directory nor its parent; every name of letters and digits of that length is valid |
| CaAnswers.FirstState | internal/castore/castore.go:120-141 | a new cadir holds serial 2 as the next, the CA's own inventory line as far as it could be written, and nothing else |
| CaLeaf.SignedLeafExact | internal/castore/castore.go:331-374 | every leaf issued, in terms of the CSR, what the operator asks for and the configuration: exactly which DNS names in which order, which addresses, and how long it lives |
| CaLeaf.SignedNames | pki/pki.go:159-186 | a leaf holds no DNS name and no address but those in the CSR, those the operator asks for, and the certname |
| Listing.ListingComplete | internal/castore/castore.go:418-442 | in a reachable state, when every file can be read, a listing has exactly one entry for every name pending or signed |
| Listing.StatusExact | internal/castore/castore.go:444-508 | a status is revoked if and only if the name has a certificate on the CRL, signed if and only if it has one that is not, requested if and only if it has a request and no certificate; serial, validity, names, fingerprint and authorization facts are those of the certificate, or of the request, which has no serial and no validity |
| Listing.ListingSays | internal/castore/castore.go:418-442 | the same of every entry of a listing |
| Listing.ReadFailures | internal/castore/castore.go:408-497 | where no name is both pending and signed, a status under failed reads is not found exactly when it would be or the name's own file is unreadable; it is otherwise the same, but for a revoked one that shows as signed while the CRL is unreadable |
| CaServer.CA.Statuses | internal/castore/castore.go:418-442 | an unreadable directory is the only error; otherwise the result is strictly sorted by name and holds exactly what Status gives for each known name under the same read failures, with the CRL read once |
| CaServer.CA.StatusByName | internal/castore/castore.go:408-416 | the status of one name on the cadir as it can be read, or not found |
| CaServer.CA.StatusWithRevokedLocked | internal/castore/castore.go:463-508 | the status on the cadir as it can be read, with the CRL given; an unreadable file is passed over |
| CaServer.CA.constructor | internal/castore/castore.go:95-142 | a new CA is the initial state |
| CaServer.CA.Open | internal/castore/castore.go:144-171 | reopening loses the submissions in flight and nothing on disk |
| CaServer.CA.SetAutosignAll | internal/castore/castore.go:178-182 | only the flag changes |
| CaServer.CA.NextSerialLocked | internal/castore/castore.go:523-537 | the new serial file and the result are those of a draw |
| CaServer.CA.AppendToInventory | internal/castore/castore.go:540-551 | one line more, or nothing if it fails |
| CaServer.CA.SignLocked | internal/castore/castore.go:345-374 | the whole cadir, the leaf signed and the result are those of the signing section |
| CaServer.CA.SignPending | internal/castore/castore.go:331-343 | Sign is its step and keeps the invariant |
| CaServer.CA.SnapshotSection | internal/castore/castore.go:200-202 | the first section is its step |
| CaServer.CA.CheckRequest | internal/castore/castore.go:204-224 | the checks between the sections, in their order, whatever the source address |
| CaServer.CA.StoreSection | internal/castore/castore.go:226-258 | the second section is its step, reply included, and keeps the invariant |
| CaServer.CA.PolicySection | internal/castore/castore.go:260-262 | a verdict is its step |
| CaServer.CA.FinishSection | internal/castore/castore.go:264-285 | the third section is its step, reply included, and keeps the invariant |
| CaServer.CA.SubmitCSR | internal/castore/castore.go:199-286 | an uninterrupted submission is its four events in a row, always ends, and answers with the reply of the section it ended in; a welcome and approved one is signed from its own CSR |
| CaServer.CA.RevokeCert | internal/castore/castore.go:378-402 | Revoke, with its loop over the CRL, is its step and keeps the invariant |
| CaServer.CA.CleanName | internal/castore/castore.go:590-608 | Clean is its step and keeps the invariant |
| CaServer.CA.DeleteCSR | internal/castore/castore.go:300-311 | DeleteCSR is its step and keeps the invariant |
| CaServer.CA.ServerTLSCert | internal/castore/castore.go:613-664 | ServerTLSCert is its step, result included, and keeps the invariant |
| CaProvenance.FromStays | internal/castore/castore.go:199-402 | while all submissions under a name carry CSRs of one set, every CSR pending or in flight under it is of that set, and so is the CSR of every new certificate, whose other extensions are the ones an operator added |
| CaProvenance.NeverDifferent | internal/castore/castore.go:231-242 | while they all carry the same CSR, none is turned away for a different one |
| CaProvenance.RejectedExact | internal/castore/castore.go:226-242 | for every configuration and every set of failures: a submission is rejected as different if and only if its checks pass, no certificate is seen, the pending request is read, and it is another |
| Agent.Enroller.constructor | agent/agent.go:88-108 | an enroller for one name and ssldir, or none |
| Agent.Enroller.ValidatePinnedCA | agent/agent.go:409-433 | the checks of a CA against the pins, in their order |
| Agent.Enroller.LoadFromDisk | agent/agent.go:188-232 | the stored identity, "not provisioned", or the error, read for read |
| Agent.Enroller.ObtainCA | agent/agent.go:254-302 | the stored, configured or fetched CA and the ssldir afterwards |
| Agent.Enroller.Adopt | agent/agent.go:236-250 | validation, then the write, then the identity |
| Agent.Enroller.KeyForRun | agent/agent.go:140-149 | the best-effort CRL and the key |
| Agent.Enroller.MakeRequest | agent/agent.go:156-167 | the CSR is a function of configuration and key, and is written before it is sent |
| Agent.Enroller.Begin | agent/agent.go:88-138 | a run up to a trusted CA, or the fast path, after the checks of server, certname and key size |
| Agent.Enroller.Run | agent/agent.go:110-184 | the whole of Enroll, with the ssldir it leaves; a polled certificate comes from an issued reply |
| Agent.Load | agent/agent.go:439-458 | Load reads and never writes |
| Agent.PinnedExactly | agent/agent.go:409-433 | the pin check passes if and only if the first certificate of the text has the DER text of the pinned one and the pinned fingerprint, as far as configured |
| Agent.IssuedExactly | agent/agent.go:384-404 | a certificate is accepted if and only if it parses, chains to the CA, carries the certname and matches the key |
| AgentIdentity.AdoptedExactly | agent/agent.go:236-250 | adoption succeeds for exactly those certificates, if the write does, and otherwise leaves the ssldir alone |
| AgentIdentity.EnrolledIsGood | agent/agent.go:110-184 | every identity Enroll returns, whatever the server answers and whatever fails, chains to a root in its CA text, carries the certname, matches its key, and the first certificate of that text satisfies every pin |
| AgentIdentity.LoadedIsGood | agent/agent.go:439-458 | the same for Load |
| AgentIdentity.PinnedByDigest | agent/agent.go:409-433 | a fingerprint pin in any style means the first certificate of the CA text has that digest |
| AgentIdentity.PinnedRootExact | agent/agent.go:257-296 | every identity returned under a CA text, from any ssldir and server and for every way certificates may chain, chains to the pinned certificate alone, if and only if that certificate is the only root in the text |
| AgentIdentity.OtherRootAccepted | agent/agent.go:384-404 | with another root in the text, a run under the pin returns an identity that chains to that root and not to the pinned certificate |
| AgentIdentity.PinLeavesOtherRoots | agent/agent.go:384-404 | for every pin and every other certificate, a text with both as roots is such a case |
| AgentIdentity.EnrolledHolds | agent/agent.go:110-184 | a successful enrolment leaves CA, certificate and key of the identity in the ssldir; for a certname of "ca" the certificate has replaced the CA |
| AgentIdentity.EnrollThenLoad | agent/agent.go:439-458 | Load afterwards returns the same leaf, key and CA if and only if the leaf still verifies; for "ca" the leaf itself has become the CA |
| AgentIdentity.CaNameOverwrites | agent/agent.go:236-250 | for certname "ca" and a server that answers with a certificate for the name and key, enrolment succeeds and the configured CA is overwritten by that certificate |
| AgentIdentity.EnrollAgain | agent/agent.go:120-131 | Enroll afterwards returns the same identity, writes nothing and does not depend on the server |
| AgentIdentity.TrustIsExplicit | agent/agent.go:254-302 | the CA of an identity was on disk, configured, or fetched under a fingerprint or an explicit opt-in |
| AgentIdentity.FileStays | agent/agent.go:110-184 | a run leaves a stored CA alone if its second read succeeds, a private key if it can be read, and every file outside its layout |
| AgentIdentity.CaReplacedExact | agent/agent.go:254-302 | a run (certname other than "ca") changes the CA file if and only if the configuration is in order, no complete identity is stored, the directories and the file can be written, a stored CA is missing, empty or not read the second time, and the CA chosen has other bytes; the file then holds the CA chosen |
| AgentIdentity.StoredCaLost | agent/agent.go:254-302 | under TrustOnFirstUse one failed second read puts the server's CA in place of the stored one |
| AgentAnswers.LoadExact | agent/agent.go:188-232 | when an ssldir is "not provisioned", when it yields an identity, and which; it is an error otherwise |
| AgentAnswers.ChoiceExact | agent/agent.go:263-292 | a CA is chosen if and only if the configured one parses and has the fingerprint asked for, or, with none configured and trust allowed, the one fetched does; no trust and a failed fetch are told apart |
| AgentAnswers.StartExact | agent/agent.go:88-138 | which configurations are refused and how, and when a run comes to an identity on disk or to a CA with a root, and to which |
| AgentAnswers.CrlKept | agent/agent.go:140-145 | the CRL file is written exactly for a body that came whole with a 200 |
| AgentAnswers.KeyExact | internal/ssldir/ssldir.go:58-81 | when there is a key, and that a generated one is on disk with its public half |
| AgentAnswers.RequestExact | agent/agent.go:156-167 | a request is sent if and only if it can be made and written, and is then the one on disk |
| AgentAnswers.EnrolExact | agent/agent.go:140-184 | once a CA is trusted, a run returns an identity if and only if it has a key, and the certificate served at once, or else polled after an accepted request, is acceptable and can be kept; when it answers that submission or polling failed |
| AgentAnswers.PinErrors | agent/agent.go:409-433 | which error a CA text or pin gives |
| AgentAnswers.IssueErrors | agent/agent.go:384-404 | which error a certificate gives: the first of parsing, roots, chain, name and key |
| AgentAnswers.LoadedExact | agent/agent.go:439-458 | what Load answers: invalid name, not bootstrapped, the stored identity, or the error of reading it |
| AgentAnswers.AdoptErrors | agent/agent.go:236-250 | a refused certificate is refused for its own reason; an accepted one that cannot be kept is a file error |
| SslDir.PathsDistinct | internal/ssldir/ssldir.go:28-39 | the paths of an ssldir are distinct, except that the certificate path is the CA path if and only if the certname is "ca" |
| SslDir.PuppetLayout | internal/ssldir/ssldir.go:1-10 | the documented paths |
| SslDir.Dir.LoadOrCreateKey | internal/ssldir/ssldir.go:58-81 | the ssldir and the result afterwards, private key before public key |
| SslDir.Dir.Write | internal/ssldir/ssldir.go:84-89 | a file is written whole or keeps its old content |
| SslDir.KeyKeptExact | internal/ssldir/ssldir.go:58-81 | a key returned is the key on file; a key on file is replaced if and only if reading it fails and a different one is generated and written |
| Polling.PollForCert | agent/agent.go:322-352 | one GET without a wait, else at most ceil(wait / interval) + 1; no sleep reaches past the deadline; it gives up only at or after the deadline; a certificate is the body of the last GET, the first issued reply; cancellation is noticed at once |
| Convergence.WorldStepKeeps | agent/agent.go:110-184 | every step of an agent run (cut off anywhere) and of the CA keeps: pending and in-flight CSRs, the filed certificate and every returned identity go back to the one stored key |
| Convergence.WorldRunKeeps | agent/agent.go:110-184 | so does every run of the two, from a new CA and any ssldir |
| Convergence.RetriesConverge | agent/agent.go:110-184 | however often Enroll is cut off and rerun, with every other operation of the CA in between, no submission of the agent is rejected as a different request, and its identities and certificate all have the stored key |
| Convergence.TakingUpIsSteps | agent/agent.go:110-154 | an Enroll call against a CA with a certificate to serve is the steps start, key, fetch |
| Convergence.SubmittingIsSteps | agent/agent.go:110-184 | an Enroll call that submits and polls a certificate is the steps start, key, prepare, send, fetch |
| Convergence.FailingIsSteps | agent/agent.go:110-184 | an Enroll call that gets no certificate, for whatever reason, is the same steps cut short, whether or not a failed PUT arrived |
| Convergence.CaNameExact | internal/castore/castore.go:313-317 | an agent called "ca" is served the CA certificate, and takes it for its own if and only if it carries that name and the agent's key and verifies |
| Convergence.CaNameNeverEnrols | pki/pki.go:80-80 | a CA made by Init is called otherwise, so against it such an agent never enrols over the network |
| Enrolment.HonestStepKeeps | agent/agent.go:110-184 | against an honest CA every step keeps: CA file, run and identities know only this CA, and the stored certificate answers the agent's own request |
| Enrolment.HonestRunKeeps | agent/agent.go:110-184 | so does every run of the two, from an ssldir without a certificate |
| Enrolment.IdentitiesReturned | agent/agent.go:110-184 | every identity ever returned in such runs has the stored key, this CA and a certificate this CA issued for the agent's own request; it has exactly the configured trusted facts where operators add none of another name |
| Enrolment.SignedEnrols | agent/agent.go:151-154 | from any reachable state in which the CA has signed the name, an uninterrupted run without failures returns an identity for the stored key |
| Enrolment.AutosignEnrols | agent/agent.go:156-184 | with an autosigning CA one uninterrupted run returns the certificate the CA issued for its CSR, and the configured facts |
| Enrolment.ResubmissionExact | internal/ssldir/ssldir.go:58-63 | for a CA in any configuration and any failures on either side: a retry that found its CA is rejected as a different request if and only if the stored key could not be read and another key was generated and written, and the new key's request is made, written, sent and compared with a pending one; assumed are the conditions of RetriesConverge up to that point and a fresh thread |
| Enrolment.FactsSurvive | internal/castore/castore.go:361-364 | the certificate for an agent's CSR holds exactly the configured facts if and only if the operator who signed it added none of another name; policy normalization accepts that CSR, and the policy is shown exactly the configured facts |
| Enrolment.SansSurvive | pki/pki.go:47-186 | the DNS names of that certificate are the ones the agent asked for, or none where the CA does not allow them, if the operator adds none |
| Extensions.BuildExtensions | internal/ppext/requests.go:14-38 | the result is one function of the map, whatever order the map is iterated in |
| Extensions.SortedKeys | internal/ppext/requests.go:15-19 | the keys in increasing order, whatever order they come in |
| Text.LessExact | internal/ppext/requests.go:19-19 | the order keys are sorted in: first difference, then length |
| Extensions.AllowedFromCSR | internal/ppext/requests.go:43-51 | the extensions in the Puppet arc, in order, none critical |
| Extensions.AllowedAre | internal/ppext/requests.go:43-51 | every extension in the arc is copied, in its place, with its value, never critical, and nothing else is |
| Extensions.Describe | internal/ppext/requests.go:54-62 | the facts, the last of one name winning |
| Extensions.AuthExtensions | internal/ppext/requests.go:66-74 | the facts of the authorization subtree |
| Extensions.AuthFactsAre | internal/ppext/requests.go:66-74 | the authorization facts are exactly the extensions under 1.3.6.1.4.1.34380.1.3, by name, the last of a name winning |
| Extensions.BuildShape | internal/ppext/requests.go:14-38 | an accepted map becomes one non-critical extension a key, in key order, no OID twice |
| Extensions.FactsOfAllowed | internal/ppext/requests.go:43-62 | filtering as the CA does does not change what is displayed |
| Extensions.ExtensionRoundTrip | internal/ppext/requests.go:14-62 | building, filtering and describing give back exactly the keys in the Puppet arc, renamed, with their values, if and only if those values are shorter than 2^31 bytes |
| Der.ValueRoundTrip | internal/ppext/ppext.go:107-126 | a value survives encoding and decoding if and only if it is shorter than 2^31 bytes (sections 8.1.3 and 10.1 of X.690) |
| Der.EncodedForm | internal/ppext/ppext.go:107-114 | an encoded value is the UTF8String tag, the definite length in its shortest form, and the value |
| Der.StringsRead | internal/ppext/ppext.go:118-126 | UTF8String and PrintableString are read, by class and tag; any other tag, and trailing bytes, give back the raw bytes |
| Der.LongLengthsAreRaw | internal/ppext/ppext.go:118-126 | a length in more octets than it takes, or of no definite form, is not read as a string |
| Oids.ResolveOID | internal/ppext/ppext.go:75-95 | the OID of a table name or dotted string, or the first error |
| Oids.IsPuppetOID | internal/ppext/ppext.go:130-140 | the base arc is a prefix |
| Oids.PuppetArcIs | internal/ppext/ppext.go:21-22 | the Puppet arc is 1.3.6.1.4.1.34380.1 |
| Oids.NamesRegistered | internal/ppext/ppext.go:35-59 | the 25 registered names resolve to 1.3.6.1.4.1.34380.1.1.1 to .25, in their order |
| Oids.AuthorizationNames | internal/ppext/ppext.go:60-61 | the two authorization names resolve to .3.1 and .3.13 |
| Oids.ResolveNameFor | internal/ppext/ppext.go:75-103 | ResolveOID inverts NameFor on exactly the OIDs of at least 3 in-range arcs with legal leading arcs (section 8.19.4 of X.690) |
| Oids.NameForInjective | internal/ppext/ppext.go:98-103 | on those, NameFor is injective |
| Oids.ResolvedIsLegal | internal/ppext/ppext.go:75-95 | ResolveOID returns only such OIDs |
| Oids.TableRoundTrip | internal/ppext/ppext.go:34-71 | each row of the table is found again from its name and from its OID |
| Oids.OidStringInjective | internal/ppext/ppext.go:65-71 | different OIDs print differently |
| Policy.BuildPolicyInput | internal/castore/policy.go:48-72 | the input, or the first extension that has no place in it; the input is complete: names, addresses, facts and circumstances of the request |
| Policy.PolicyShown | internal/castore/policy.go:48-80 | a policy is shown version 1, the certname and source address of the call, exactly the DNS names and addresses of the CSR, and the same again if and only if the CSR has a subjectAltName extension |
| Policy.PolicyAccepts | internal/castore/policy.go:48-91 | normalization succeeds if and only if every extension is presentable: Puppet values decode, nothing else but subjectAltName is critical |
| Policy.PolicySeesWhatIsIssued | internal/castore/policy.go:48-91 | the extension requests a policy sees are the facts of the extensions the CA copies into the leaf, order and last-wins included |
| Policy.CappedBuffer.Write | internal/castore/policy.go:142-151 | a write reports its whole length and keeps what fits |
| Policy.CapIgnoresChunking | internal/castore/policy.go:142-151 | the kept output is a prefix, of 4096 bytes or all there is, however it was split into writes |
| Pki.CollectRequestSans | pki/pki.go:53-71 | the closure's loop collects the trimmed, distinct names, addresses apart |
| Pki.RequestSansAre | pki/pki.go:53-71 | a request without alternative names has no SANs; one with them has exactly the trimmed, non-blank certname and alternative names, DNS names once each by first occurrence, addresses apart |
| Pki.CreateCSR | pki/pki.go:47-77 | what is signed is the certname, those names and the extensions given |
| Pki.SignCSR | pki/pki.go:126-197 | the loop over the honoured sources computes the leaf |
| Pki.DnsNamesAre | pki/pki.go:159-186 | the names collected are exactly the trimmed, non-empty, non-address ones, without repetition, in the order of first occurrence |
| Text.TrimSpaceCuts | pki/pki.go:54-57 | trimming takes white space off both ends and nothing else |
| Pki.LeafSanAlgebra | pki/pki.go:126-197 | the DNS names of a leaf are exactly the trimmed, non-blank, non-address names honoured, and the certname once an honoured name is not blank or an honoured request has an address, each once and by first occurrence; its addresses are those of the honoured request names, of the request, of the operator and of the certname, one after another with repetitions; it lives as long as asked and never longer than the CA |
| Pki.LeafText | pki/pki.go:187-197 | a leaf's text is the CA's signature over its fields; a subjectAltName among the extensions given stands in for the names collected |
| Pki.AddressesAre | pki/pki.go:163-173 | of a list of names, every one that is an address gives one, in its place, repeated or not, and nothing else does |
| Pki.RequestedSansSurvive | pki/pki.go:53-186 | signing a CreateCSR output with SANs allowed and no others keeps its DNS list exactly; addresses are kept, and an address certname is added once more |
| Fingerprints.ColonHex | pki/pki.go:244-261 | the buffer of 3n - 1 characters is filled exactly, two digits a byte with colons between |
| Fingerprints.RenderedAt | pki/pki.go:244-261 | the rendering, character by character |
| Fingerprints.FingerprintEqualExact | agent/agent.go:470-473 | two renderings, with or without colons, in either case, compare equal if and only if the digests are equal |
| Fingerprints.OnlyColonsAndCase | agent/agent.go:470-473 | colons anywhere make no difference, and without them two fingerprints compare equal exactly when they differ in case at most |
| Fingerprints.PlainHexInjective | pki/pki.go:244-261 | the rendering is injective |
| Numerals.SerialRoundTrip | internal/castore/castore.go:523-537 | the serial file reads back as written for every number, whatever the padding and width |
| Numerals.SerialTextForm | internal/castore/castore.go:523-537 | the serial file is one line of at least four upper-case hexadecimal digits without needless zeros |
| Numerals.SerialsRead | internal/castore/castore.go:523-537 | a serial with any padding, in either case, or with a plus sign reads the same |
| Numerals.AtoiPrintInt | internal/ppext/ppext.go:83-90 | a printed arc reads back if and only if it fits an int |
| Attributes.StripComment | internal/ppext/requests.go:118-134 | the loop over the quote state returns the text before the comment |
| Attributes.CommentStart | internal/ppext/requests.go:118-134 | it cuts at a number sign outside quotes or not at all |
| Attributes.StripIdempotent | internal/ppext/requests.go:118-134 | stripping is idempotent and returns a prefix |
| Attributes.EntryStripped | internal/ppext/requests.go:118-134 | of such an entry, exactly the comment is stripped |
| Attributes.NoiseIgnored | internal/ppext/requests.go:89-112 | blank lines, comments, and indented lines without a colon change nothing anywhere |
| Attributes.IndentedIgnored | internal/ppext/requests.go:92-110 | an indented line is never a heading, and before the first section it is passed over |
| Attributes.ParseCSRAttributes | internal/ppext/requests.go:82-114 | the loop over the lines fills both maps |
| Attributes.AttributesRoundTrip | internal/ppext/requests.go:82-141 | two plain maps, rendered in any key order with any indentation, any mixture of double-quoted, single-quoted and bare values, comments behind them and meaningless lines between and before them, parse back to themselves, number signs in quoted values included |

## Left out

- RSA, hashes, signatures, chain verification and X.509, PEM and ASN.1 parsing, except the
  definite-length strings extension values go through: library code, uninterpreted.
- HTTP routes, TLS configurations, the certificate an Identity serves and the command line: thin
  wrappers. `delStatus` is Revoke and then Clean. The server's replies to the agent are arbitrary,
  or those of the CA's state where a lemma says so.
- Running the autosign policy: its process, JSON input, timeout and exit codes. The verdict is an
  arbitrary yes or no; a denial and an error both end the submission unsigned, as in the code.
- Files shared by several processes and writes that stop half-way: the documented single-writer
  limitation. A write happens whole or not at all.
- Corrupt CRL, certificate and key files in the cadir: these are held parsed. The code takes a CRL that
  does not parse for an empty one, as it does an unreadable one, and only the latter is modelled.
- CaServer.CA.constructor: does not model Init's refusal of an existing cadir or its failures before the
  inventory line; they return no CA.
- CaServer.CA.Open: does not model the failures to read or parse the CA's certificate and key; they
  return no CA. What Open does to a running store is the loss of its threads.
- `SignOpts.Serial` left empty: both callers set it. `validateOptions`, `CreateCA` and the CRL's number
  and validity.
- File modes, wall-clock text in the inventory, log messages and the words of errors; errors are told
  apart by kind.
- Reuse of a thread number while it is in use: such a Begin does nothing.
- Text is a sequence of characters in names and a sequence of bytes in values; letter case is
  folded for ASCII only, and `net.ParseIP` stands for its result in the form a parsed CSR shows.
- Sorting stands for the library's sort: the result is only used as sorted and a permutation.
- The hostname behind an empty certname and the choice of port: the certname is given.
- The agent's two copies of the decoded leaf: validation and identity use the same parse.
- Pki.LeafSanAlgebra: does not cover an operator's own subjectAltName extension, which replaces the names
  collected; what a parser finds in it is uninterpreted. An extension list no certificate can be made
  with is one of the failures of creating it.
- AgentIdentity.CaReplacedExact: leaves out the certname "ca", for which adoption writes the CA file too;
  AgentIdentity.EnrolledHolds says with what.
- Convergence.RetriesConverge: assumes that a stored key can be read while it is there and that nobody
  else submits under the name; Enrolment.ResubmissionExact gives the exact effect of an unreadable key.
- Enrolment.FactsSurvive: for configurations without a hand-made subjectAltName extension and with
  values below 2^31 bytes, the decoder's limit.
