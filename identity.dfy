/**
 * `get_current_user`: the ambient identity shown to the user, `DOMAIN\user`
 * when the Windows domain variable is set and non-empty, else the bare user
 * name. The environment and the account name are passed in as parameters.
 */
module Identity {
  import opened Text

  const Backslash: char := '\\'

  /** The identity string for a domain (empty when unset) and a user name. */
  function CurrentUser(domain: string, username: string): (identity: string)
    ensures domain == "" ==> identity == username
    ensures domain != "" ==>
      && |identity| == |domain| + 1 + |username|
      && identity[..|domain|] == domain
      && identity[|domain|] == Backslash
      && identity[|domain| + 1..] == username
  {
    if domain != "" then domain + [Backslash] + username else username
  }

  /** Reading an identity back: the text before the first backslash is the domain,
      the rest is the user name; without a backslash there is no domain. */
  function ParseIdentity(identity: string): (parts: (string, string))
  {
    var pieces := Split(identity, Backslash);
    if |pieces| == 1 then ("", identity) else (pieces[0], Join([Backslash], pieces[1..]))
  }

  /** The identity determines its domain and user name whenever the domain holds no
      backslash and, for an empty domain, the user name holds none either. */
  lemma {:induction false} IdentityRoundTrip(domain: string, username: string)
    requires Backslash !in domain
    requires domain == "" ==> Backslash !in username
    ensures ParseIdentity(CurrentUser(domain, username)) == (domain, username)
  {
    if domain == "" {
      SplitAbsent(username, Backslash);
    } else {
      SplitAfterFirst(domain, Backslash, username);
      JoinSplit(username, Backslash);
    }
  }
}
