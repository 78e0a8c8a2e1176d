/** Source epochs, the unit of authority: src/registry.cpp:165-178, 454-460. */
module Authority {
  import opened Bytes

  /** source_is_live: the source is registered and this is its current epoch. */
  predicate SourceIsLive(epochs: map<nat, nat>, source: nat, epoch: nat) {
    source in epochs && epochs[source] == epoch
  }

  /** require_authority, with 0 for the invalid source id. */
  function RequireAuthority(epochs: map<nat, nat>, source: nat, epoch: nat): Result<()> {
    if source == 0 then Err(InvalidArgument)
    else if !SourceIsLive(epochs, source, epoch) then Err(StaleAuthority)
    else Ok(())
  }
}
