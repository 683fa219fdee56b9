/**
 * The gate both admin routes open with (`src/app/api/admin/list/route.ts`
 * and `src/app/api/admin/export/route.ts`): a signed-in user, then a row
 * for that user in `admin_users`.
 */
module AdminAuth {
  import opened Wrappers

  /** What the `admin_users` lookup for the signed-in user returned. */
  datatype AdminLookup = AdminRow | NoAdminRow | LookupFailed

  datatype Denial = Denial(status: nat, error: string)

  const Unauthorized: Denial := Denial(401, "Unauthorized")
  const Forbidden: Denial := Denial(403, "Forbidden: Admin access required")

  /** `None` lets the request through; the lookup only matters once there is a user. */
  function AdminGate(user: Option<string>, lookup: AdminLookup): (d: Option<Denial>)
    ensures user.None? ==> d == Some(Unauthorized)
    ensures user.Some? ==> (d.None? <==> lookup == AdminRow)
    ensures user.Some? && lookup != AdminRow ==> d == Some(Forbidden)
  {
    if user.None? then Some(Unauthorized)
    else
      match lookup
      case AdminRow => None
      case NoAdminRow => Some(Forbidden)
      case LookupFailed => Some(Forbidden)
  }
}
