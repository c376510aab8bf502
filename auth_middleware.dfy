/** The dependency that lets only administrators through. */
module AuthMiddleware {
  import opened Wrappers
  import opened Models

  const PermisosRequeridos := "Se requieren permisos de administrador para esta operación"

  /** The current user unchanged when it is an administrator, 403 otherwise. */
  function AdminRequired(currentUser: User): (r: Result<User>)
    ensures r.Ok? <==> currentUser.data.role == Admin
    ensures r.Ok? ==> r.value == currentUser
    ensures r.Err? ==> r.error == HttpException(403, PermisosRequeridos)
  {
    if currentUser.data.role != Admin then Err(HttpException(403, PermisosRequeridos))
    else Ok(currentUser)
  }

  /** The gate looks at the role alone: two users with the same role get the same verdict. */
  lemma AdminRequiredDependsOnRole(u: User, v: User)
    requires u.data.role == v.data.role
    ensures AdminRequired(u).Ok? <==> AdminRequired(v).Ok?
    ensures AdminRequired(u).Err? ==> AdminRequired(u) == AdminRequired(v)
  {
  }
}
