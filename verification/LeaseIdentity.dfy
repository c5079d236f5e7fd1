/** What counts as a lease identifier, for every component that takes one. */
module LeaseIdentity {

  const MAXIMUM_LEASE_ID_BYTES := 256

  predicate ValidLeaseId(id: string) {
    id != "" && |id| <= MAXIMUM_LEASE_ID_BYTES
  }
}
