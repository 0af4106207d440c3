/** Which pool serves a tenant. Pools are named by id so that tenants can share one. */
module Routing {
  import opened Wrappers

  type PoolId = nat

  datatype UnknownTenantPolicy = UseDefault | Reject

  datatype PermissionDenied = PermissionDenied(tenant: string)

  datatype TenantRouter = TenantRouter(
    tenants: map<string, PoolId>, fallback: Option<PoolId>, policy: UnknownTenantPolicy)
  {
    function PoolFor(tenant: string): Result<Option<PoolId>, PermissionDenied> {
      if tenant in tenants then Ok(Some(tenants[tenant]))
      else match policy
           case UseDefault => Ok(fallback)
           case Reject => Err(PermissionDenied(tenant))
    }

    /** The tenant has a pool to pick from. */
    predicate Serves(tenant: string) { PoolFor(tenant).Ok? && PoolFor(tenant).value.Some? }

    function ServingPool(tenant: string): PoolId
      requires Serves(tenant)
    {
      PoolFor(tenant).value.value
    }
  }
}
