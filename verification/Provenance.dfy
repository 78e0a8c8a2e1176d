/** How a source says it obtained its evidence, include/trxreg/provenance.hpp:28. */
module Provenances {
  import opened Bytes

  datatype EvidenceKind = RealEvidence | SyntheticEvidence | UndeclaredEvidence

  /** Stored with every claim, declaration, sample, threshold and rule. */
  datatype Provenance = Provenance(kind: EvidenceKind, origin: Text, procedure: Text, captureRef: Text)
}
