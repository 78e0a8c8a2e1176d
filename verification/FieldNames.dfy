/** The member names of every stored document, in the alphabetical order `Value::object` keeps. */
module FieldNames {
  /** a comes before b: they part at position k. */
  predicate Precedes(a: string, b: string, k: nat) {
    && k <= |a| && k < |b| && a[..k] == b[..k] && b[k] < 128 as char
    && (k == |a| || a[k] < b[k])
  }

  /** Names in alphabetical order; `splits` says where each parts from the one before. */
  predicate Alphabetical(names: seq<string>, splits: seq<nat>) {
    && |names| == |splits| + 1 && names[0] != ""
    && forall i :: 0 <= i < |splits| ==> Precedes(names[i], names[i + 1], splits[i])
  }

  const HEADER_NAMES :=
    ["conflicts_observed", "dropped_samples", "generation", "mutations", "next_module_uid", "next_rule_id",
     "next_sequence", "next_source_id", "registry_incarnation"]
  const HEADER_SPLITS: seq<nat> := [0, 0, 0, 0, 5, 5, 6, 0]

  lemma HeaderNames()
    ensures Alphabetical(HEADER_NAMES, HEADER_SPLITS)
  {
    assert Precedes("conflicts_observed", "dropped_samples", 0);
    assert Precedes("dropped_samples", "generation", 0);
    assert Precedes("generation", "mutations", 0);
    assert Precedes("mutations", "next_module_uid", 0);
    assert Precedes("next_module_uid", "next_rule_id", 5);
    assert Precedes("next_rule_id", "next_sequence", 5);
    assert Precedes("next_sequence", "next_source_id", 6);
    assert Precedes("next_source_id", "registry_incarnation", 0);
  }

  const DESCRIPTOR_NAMES :=
    ["declared_kind", "description", "instance_id", "name"]
  const DESCRIPTOR_SPLITS: seq<nat> := [2, 0, 0]

  lemma DescriptorNames()
    ensures Alphabetical(DESCRIPTOR_NAMES, DESCRIPTOR_SPLITS)
  {
  }

  const SOURCE_NAMES :=
    ["descriptor", "epoch", "generation", "id", "name", "registered_wall_ns", "sequence"]
  const SOURCE_SPLITS: seq<nat> := [0, 0, 0, 0, 0, 0]

  lemma SourceNames()
    ensures Alphabetical(SOURCE_NAMES, SOURCE_SPLITS)
  {
    assert Precedes("descriptor", "epoch", 0);
    assert Precedes("epoch", "generation", 0);
    assert Precedes("generation", "id", 0);
    assert Precedes("id", "name", 0);
    assert Precedes("name", "registered_wall_ns", 0);
    assert Precedes("registered_wall_ns", "sequence", 0);
  }

  const PROVENANCE_NAMES :=
    ["capture_ref", "content_digest", "kind", "method", "origin"]
  const PROVENANCE_SPLITS: seq<nat> := [1, 0, 0, 0]

  lemma ProvenanceNames()
    ensures Alphabetical(PROVENANCE_NAMES, PROVENANCE_SPLITS)
  {
    assert Precedes("capture_ref", "content_digest", 1);
    assert Precedes("content_digest", "kind", 0);
    assert Precedes("kind", "method", 0);
    assert Precedes("method", "origin", 0);
  }

  const EVENT_NAMES :=
    ["from", "generation", "incarnation", "reason", "sequence", "source", "source_epoch", "to", "wall_ns"]
  const EVENT_SPLITS: seq<nat> := [0, 0, 0, 0, 1, 6, 0, 0]

  lemma EventNames()
    ensures Alphabetical(EVENT_NAMES, EVENT_SPLITS)
  {
    assert Precedes("from", "generation", 0);
    assert Precedes("generation", "incarnation", 0);
    assert Precedes("incarnation", "reason", 0);
    assert Precedes("reason", "sequence", 0);
    assert Precedes("sequence", "source", 1);
    assert Precedes("source", "source_epoch", 6);
    assert Precedes("source_epoch", "to", 0);
    assert Precedes("to", "wall_ns", 0);
  }

  const CLAIM_NAMES :=
    ["clock_domain", "field", "generation", "incarnation", "live", "module", "observed_at_wall_ns",
     "provenance", "sequence", "source", "source_epoch", "subkey", "value"]
  const CLAIM_SPLITS: seq<nat> := [0, 0, 0, 0, 0, 0, 0, 0, 1, 6, 1, 0]

  lemma ClaimNamesFirst()
    ensures Precedes("clock_domain", "field", 0)
    ensures Precedes("field", "generation", 0)
    ensures Precedes("generation", "incarnation", 0)
    ensures Precedes("incarnation", "live", 0)
    ensures Precedes("live", "module", 0)
    ensures Precedes("module", "observed_at_wall_ns", 0)
  {
  }

  lemma ClaimNamesLast()
    ensures Precedes("observed_at_wall_ns", "provenance", 0)
    ensures Precedes("provenance", "sequence", 0)
    ensures Precedes("sequence", "source", 1)
    ensures Precedes("source", "source_epoch", 6)
    ensures Precedes("source_epoch", "subkey", 1)
    ensures Precedes("subkey", "value", 0)
  {
  }

  lemma ClaimNames()
    ensures Alphabetical(CLAIM_NAMES, CLAIM_SPLITS)
  {
    hide Precedes;
    ClaimNamesFirst();
    ClaimNamesLast();
  }

  const DECLARATION_NAMES :=
    ["clock_domain", "generation", "incarnation", "key", "live", "module", "module_subject",
     "observed_at_wall_ns", "port", "provenance", "sequence", "source", "source_epoch", "subkey", "value"]
  const DECLARATION_SPLITS: seq<nat> := [0, 0, 0, 0, 0, 6, 0, 0, 1, 0, 1, 6, 1, 0]

  lemma DeclarationNamesFirst()
    ensures Precedes("clock_domain", "generation", 0)
    ensures Precedes("generation", "incarnation", 0)
    ensures Precedes("incarnation", "key", 0)
    ensures Precedes("key", "live", 0)
    ensures Precedes("live", "module", 0)
    ensures Precedes("module", "module_subject", 6)
    ensures Precedes("module_subject", "observed_at_wall_ns", 0)
  {
  }

  lemma DeclarationNamesLast()
    ensures Precedes("observed_at_wall_ns", "port", 0)
    ensures Precedes("port", "provenance", 1)
    ensures Precedes("provenance", "sequence", 0)
    ensures Precedes("sequence", "source", 1)
    ensures Precedes("source", "source_epoch", 6)
    ensures Precedes("source_epoch", "subkey", 1)
    ensures Precedes("subkey", "value", 0)
  {
  }

  lemma DeclarationNames()
    ensures Alphabetical(DECLARATION_NAMES, DECLARATION_SPLITS)
  {
    hide Precedes;
    DeclarationNamesFirst();
    DeclarationNamesLast();
  }

  const SAMPLE_NAMES :=
    ["clock_domain", "generation", "incarnation", "lane", "live", "metric", "module",
     "observed_at_monotonic_ns", "observed_at_wall_ns", "presence", "provenance", "sequence", "source",
     "source_epoch", "value"]
  const SAMPLE_SPLITS: seq<nat> := [0, 0, 0, 1, 0, 1, 0, 12, 0, 2, 0, 1, 6, 0]

  lemma SampleNamesFirst()
    ensures Precedes("clock_domain", "generation", 0)
    ensures Precedes("generation", "incarnation", 0)
    ensures Precedes("incarnation", "lane", 0)
    ensures Precedes("lane", "live", 1)
    ensures Precedes("live", "metric", 0)
    ensures Precedes("metric", "module", 1)
    ensures Precedes("module", "observed_at_monotonic_ns", 0)
  {
  }

  lemma SampleNamesLast()
    ensures Precedes("observed_at_monotonic_ns", "observed_at_wall_ns", 12)
    ensures Precedes("observed_at_wall_ns", "presence", 0)
    ensures Precedes("presence", "provenance", 2)
    ensures Precedes("provenance", "sequence", 0)
    ensures Precedes("sequence", "source", 1)
    ensures Precedes("source", "source_epoch", 6)
    ensures Precedes("source_epoch", "value", 0)
  {
  }

  lemma SampleNames()
    ensures Alphabetical(SAMPLE_NAMES, SAMPLE_SPLITS)
  {
    hide Precedes;
    SampleNamesFirst();
    SampleNamesLast();
  }

  const LATCH_NAMES :=
    ["consecutive", "last_sample_sequence", "last_sample_wall_ns", "last_transition_generation",
     "last_transition_wall_ns", "state"]
  const LATCH_SPLITS: seq<nat> := [0, 12, 5, 16, 0]

  lemma LatchNames()
    ensures Alphabetical(LATCH_NAMES, LATCH_SPLITS)
  {
    assert Precedes("consecutive", "last_sample_sequence", 0);
    assert Precedes("last_sample_sequence", "last_sample_wall_ns", 12);
    assert Precedes("last_sample_wall_ns", "last_transition_generation", 5);
    assert Precedes("last_transition_generation", "last_transition_wall_ns", 16);
    assert Precedes("last_transition_wall_ns", "state", 0);
  }

  const LATCH_ENTRY_NAMES :=
    ["lane", "latch", "metric"]
  const LATCH_ENTRY_SPLITS: seq<nat> := [2, 0]

  lemma LatchEntryNames()
    ensures Alphabetical(LATCH_ENTRY_NAMES, LATCH_ENTRY_SPLITS)
  {
  }

  const DESCRIBED_NAMES :=
    ["center_nm", "channel", "frequency_thz", "grid", "lane"]
  const DESCRIBED_SPLITS: seq<nat> := [1, 0, 0, 0]

  lemma DescribedNames()
    ensures Alphabetical(DESCRIBED_NAMES, DESCRIBED_SPLITS)
  {
    assert Precedes("center_nm", "channel", 1);
    assert Precedes("channel", "frequency_thz", 0);
    assert Precedes("frequency_thz", "grid", 0);
    assert Precedes("grid", "lane", 0);
  }

  const KIND_NAMES :=
    ["boolean", "count", "enum", "enum_set", "none", "real", "spectrum", "text", "text_set"]
  const KIND_SPLITS: seq<nat> := [0, 0, 4, 0, 0, 0, 0, 4]

  lemma KindNames()
    ensures Alphabetical(KIND_NAMES, KIND_SPLITS)
  {
    assert Precedes("boolean", "count", 0);
    assert Precedes("count", "enum", 0);
    assert Precedes("enum", "enum_set", 4);
    assert Precedes("enum_set", "none", 0);
    assert Precedes("none", "real", 0);
    assert Precedes("real", "spectrum", 0);
    assert Precedes("spectrum", "text", 0);
    assert Precedes("text", "text_set", 4);
  }

  const NONE_NAMES :=
    ["k"]
  const NONE_SPLITS: seq<nat> := []

  lemma NoneNames()
    ensures Alphabetical(NONE_NAMES, NONE_SPLITS)
  {
  }

  const FLAG_NAMES :=
    ["b", "k"]
  const FLAG_SPLITS: seq<nat> := [0]

  lemma FlagNames()
    ensures Alphabetical(FLAG_NAMES, FLAG_SPLITS)
  {
  }

  const COUNT_NAMES :=
    ["i", "k"]
  const COUNT_SPLITS: seq<nat> := [0]

  lemma CountNames()
    ensures Alphabetical(COUNT_NAMES, COUNT_SPLITS)
  {
  }

  const NUMBER_NAMES :=
    ["k", "r"]
  const NUMBER_SPLITS: seq<nat> := [0]

  lemma NumberNames()
    ensures Alphabetical(NUMBER_NAMES, NUMBER_SPLITS)
  {
  }

  const LABEL_NAMES :=
    ["k", "t"]
  const LABEL_SPLITS: seq<nat> := [0]

  lemma LabelNames()
    ensures Alphabetical(LABEL_NAMES, LABEL_SPLITS)
  {
  }

  const SET_NAMES :=
    ["k", "s"]
  const SET_SPLITS: seq<nat> := [0]

  lemma SetNames()
    ensures Alphabetical(SET_NAMES, SET_SPLITS)
  {
  }

  const MODULE_NAMES :=
    ["claims", "created_generation", "created_sequence", "created_wall_ns", "declarations",
     "fenced_generation", "incarnation", "incarnation_count", "key", "latches", "lifecycle", "samples",
     "state", "state_generation", "state_sequence", "state_wall_ns", "uid"]
  const MODULE_SPLITS: seq<nat> := [1, 8, 8, 0, 0, 0, 11, 0, 0, 1, 0, 1, 5, 6, 6, 0]

  lemma ModuleNamesFirst()
    ensures Precedes("claims", "created_generation", 1)
    ensures Precedes("created_generation", "created_sequence", 8)
    ensures Precedes("created_sequence", "created_wall_ns", 8)
    ensures Precedes("created_wall_ns", "declarations", 0)
    ensures Precedes("declarations", "fenced_generation", 0)
    ensures Precedes("fenced_generation", "incarnation", 0)
    ensures Precedes("incarnation", "incarnation_count", 11)
    ensures Precedes("incarnation_count", "key", 0)
  {
  }

  lemma ModuleNamesLast()
    ensures Precedes("key", "latches", 0)
    ensures Precedes("latches", "lifecycle", 1)
    ensures Precedes("lifecycle", "samples", 0)
    ensures Precedes("samples", "state", 1)
    ensures Precedes("state", "state_generation", 5)
    ensures Precedes("state_generation", "state_sequence", 6)
    ensures Precedes("state_sequence", "state_wall_ns", 6)
    ensures Precedes("state_wall_ns", "uid", 0)
  {
  }

  lemma ModuleNames()
    ensures Alphabetical(MODULE_NAMES, MODULE_SPLITS)
  {
    hide Precedes;
    ModuleNamesFirst();
    ModuleNamesLast();
  }

  const PORT_NAMES :=
    ["declarations", "first_generation", "first_wall_ns", "key", "sequence"]
  const PORT_SPLITS: seq<nat> := [0, 6, 0, 0]

  lemma PortNames()
    ensures Alphabetical(PORT_NAMES, PORT_SPLITS)
  {
    assert Precedes("declarations", "first_generation", 0);
    assert Precedes("first_generation", "first_wall_ns", 6);
    assert Precedes("first_wall_ns", "key", 0);
    assert Precedes("key", "sequence", 0);
  }

  const ATTACHMENT_NAMES :=
    ["attached_at_wall_ns", "generation", "incarnation", "live", "note", "port_index", "sequence", "slot",
     "source", "source_epoch", "uid"]
  const ATTACHMENT_SPLITS: seq<nat> := [0, 0, 0, 0, 0, 0, 1, 1, 6, 0]

  lemma AttachmentNamesFirst()
    ensures Precedes("attached_at_wall_ns", "generation", 0)
    ensures Precedes("generation", "incarnation", 0)
    ensures Precedes("incarnation", "live", 0)
    ensures Precedes("live", "note", 0)
    ensures Precedes("note", "port_index", 0)
  {
  }

  lemma AttachmentNamesLast()
    ensures Precedes("port_index", "sequence", 0)
    ensures Precedes("sequence", "slot", 1)
    ensures Precedes("slot", "source", 1)
    ensures Precedes("source", "source_epoch", 6)
    ensures Precedes("source_epoch", "uid", 0)
  {
  }

  lemma AttachmentNames()
    ensures Alphabetical(ATTACHMENT_NAMES, ATTACHMENT_SPLITS)
  {
    hide Precedes;
    AttachmentNamesFirst();
    AttachmentNamesLast();
  }

  const THRESHOLD_NAMES :=
    ["critical_enter", "critical_exit", "degraded_enter", "degraded_exit", "direction",
     "disagreement_tolerance", "escalate_after", "generation", "has_critical", "has_degraded", "lane", "live",
     "max_age_ns", "metric", "provenance", "recover_after", "sequence", "source", "source_epoch"]
  const THRESHOLD_SPLITS: seq<nat> := [10, 0, 10, 1, 2, 0, 0, 0, 4, 0, 1, 0, 1, 0, 0, 0, 1, 6]

  lemma ThresholdNamesFirst()
    ensures Precedes("critical_enter", "critical_exit", 10)
    ensures Precedes("critical_exit", "degraded_enter", 0)
    ensures Precedes("degraded_enter", "degraded_exit", 10)
    ensures Precedes("degraded_exit", "direction", 1)
    ensures Precedes("direction", "disagreement_tolerance", 2)
    ensures Precedes("disagreement_tolerance", "escalate_after", 0)
    ensures Precedes("escalate_after", "generation", 0)
    ensures Precedes("generation", "has_critical", 0)
    ensures Precedes("has_critical", "has_degraded", 4)
  {
  }

  lemma ThresholdNamesLast()
    ensures Precedes("has_degraded", "lane", 0)
    ensures Precedes("lane", "live", 1)
    ensures Precedes("live", "max_age_ns", 0)
    ensures Precedes("max_age_ns", "metric", 1)
    ensures Precedes("metric", "provenance", 0)
    ensures Precedes("provenance", "recover_after", 0)
    ensures Precedes("recover_after", "sequence", 0)
    ensures Precedes("sequence", "source", 1)
    ensures Precedes("source", "source_epoch", 6)
  {
  }

  lemma ThresholdNames()
    ensures Alphabetical(THRESHOLD_NAMES, THRESHOLD_SPLITS)
  {
    hide Precedes;
    ThresholdNamesFirst();
    ThresholdNamesLast();
  }

  const THRESHOLD_ENTRY_NAMES :=
    ["generation", "live", "sequence", "threshold"]
  const THRESHOLD_ENTRY_SPLITS: seq<nat> := [0, 0, 0]

  lemma ThresholdEntryNames()
    ensures Alphabetical(THRESHOLD_ENTRY_NAMES, THRESHOLD_ENTRY_SPLITS)
  {
  }

  const REQUIREMENT_NAMES :=
    ["key", "note", "op", "operand", "subject", "subkey"]
  const REQUIREMENT_SPLITS: seq<nat> := [0, 0, 2, 0, 3]

  lemma RequirementNames()
    ensures Alphabetical(REQUIREMENT_NAMES, REQUIREMENT_SPLITS)
  {
    assert Precedes("key", "note", 0);
    assert Precedes("note", "op", 0);
    assert Precedes("op", "operand", 2);
    assert Precedes("operand", "subject", 0);
    assert Precedes("subject", "subkey", 3);
  }

  const RULE_NAMES :=
    ["enabled", "name", "priority", "provenance", "rationale", "requirements", "verdict"]
  const RULE_SPLITS: seq<nat> := [0, 0, 2, 0, 1, 0]

  lemma RuleNames()
    ensures Alphabetical(RULE_NAMES, RULE_SPLITS)
  {
    assert Precedes("enabled", "name", 0);
    assert Precedes("name", "priority", 0);
    assert Precedes("priority", "provenance", 2);
    assert Precedes("provenance", "rationale", 0);
    assert Precedes("rationale", "requirements", 1);
    assert Precedes("requirements", "verdict", 0);
  }

  const RULE_ENTRY_NAMES :=
    ["generation", "id", "live", "rule", "sequence", "source", "source_epoch"]
  const RULE_ENTRY_SPLITS: seq<nat> := [0, 0, 0, 0, 1, 6]

  lemma RuleEntryNames()
    ensures Alphabetical(RULE_ENTRY_NAMES, RULE_ENTRY_SPLITS)
  {
    assert Precedes("generation", "id", 0);
    assert Precedes("id", "live", 0);
    assert Precedes("live", "rule", 0);
    assert Precedes("rule", "sequence", 0);
    assert Precedes("sequence", "source", 1);
    assert Precedes("source", "source_epoch", 6);
  }
}
