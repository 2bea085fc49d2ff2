/**
 * UserPrincipal: the security framework's view of a stored user.
 * It wraps one user, fixed at construction, and answers every question from it
 * or from a constant.
 */
module Principals {
  import opened Accounts

  datatype GrantedAuthority = SimpleGrantedAuthority(authority: string)

  /** The one role every user is granted. */
  const UserRole: string := "USER"

  datatype UserPrincipal = UserPrincipal(user: UserRecord) {

    function GetAuthorities(): set<GrantedAuthority> {
      {SimpleGrantedAuthority(UserRole)}
    }

    function GetPassword(): string {
      user.password
    }

    function GetUsername(): string {
      user.username
    }

    predicate IsAccountNonExpired() { true }

    predicate IsAccountNonLocked() { true }

    predicate IsCredentialsNonExpired() { true }

    predicate IsEnabled() { true }
  }

  /** A principal reports the wrapped user's own name and stored password. */
  lemma PrincipalExposesUser(u: UserRecord)
    ensures UserPrincipal(u).GetUsername() == u.username
    ensures UserPrincipal(u).GetPassword() == u.password
  {
  }

  /** Every principal has exactly the one authority "USER", whoever it wraps. */
  lemma AuthoritiesAreFixed(p: UserPrincipal, q: UserPrincipal)
    ensures p.GetAuthorities() == q.GetAuthorities()
    ensures p.GetAuthorities() == {SimpleGrantedAuthority("USER")}
  {
  }

  /** No account is ever expired, locked, out of date or disabled. */
  lemma AccountAlwaysUsable(p: UserPrincipal)
    ensures p.IsAccountNonExpired() && p.IsAccountNonLocked()
    ensures p.IsCredentialsNonExpired() && p.IsEnabled()
  {
  }
}
