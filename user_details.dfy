/**
 * MyUserDetailsService: loads a principal for a username from the user store.
 * An absent user is an error carrying "<username> not found"; the store is only read.
 */
module UserDetails {
  import opened Wrappers
  import opened Accounts
  import opened Principals

  datatype UsernameNotFoundException = UsernameNotFoundException(message: string)

  class MyUserDetailsService {
    const repo: UserRepo

    constructor (repo: UserRepo)
      ensures this.repo == repo
    {
      this.repo := repo;
    }

    function LoadUserByUsername(username: string): (r: Result<UserPrincipal, UsernameNotFoundException>)
      reads repo
      ensures r.Failure? <==> username !in repo.rows
      ensures r.Failure? ==> r.error.message == username + " not found"
      ensures r.Success? ==> r.value.user == repo.rows[username]
      ensures r.Success? && repo.Valid() ==> r.value.GetUsername() == username
    {
      match repo.FindByUsername(username)
      case None => Failure(UsernameNotFoundException(username + " not found"))
      case Some(user) => Success(UserPrincipal(user))
    }
  }

  /** A stored user's principal carries the stored name and the stored (encoded) password. */
  lemma LoadedPrincipalMatchesRow(svc: MyUserDetailsService, username: string)
    requires svc.repo.Valid() && username in svc.repo.rows
    ensures svc.LoadUserByUsername(username).Success?
    ensures svc.LoadUserByUsername(username).value.GetUsername() == username
    ensures svc.LoadUserByUsername(username).value.GetPassword() == svc.repo.rows[username].password
  {
  }
}
