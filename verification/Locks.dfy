/** The per-account lock that restricts sign-in to one method. */
module Locks {

  datatype Lock = AnyMethod | SsoOnly | PasswordOnly

  /** Whether the lock admits a sign-in or a session by SSO (`sso`) or by password (`!sso`). */
  predicate LockPermits(lock: Lock, sso: bool) {
    lock.AnyMethod? || lock == (if sso then SsoOnly else PasswordOnly)
  }

}
