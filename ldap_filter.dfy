/**
 * The search filters sent to the directory, in the string form of section 3
 * of RFC 4515. The email address is interpolated verbatim: none of the
 * characters that section requires to be escaped in an assertion value
 * (`*`, `(`, `)`, `\` and NUL) is escaped.
 */
module LdapFilter {
  import opened Wrappers

  const MailPrefix := "(mail="
  const AliasInfix := ")(proxyAddresses=smtp:"

  /** `f'(mail={email})'`: an equality match on the primary address. */
  function MailFilter(email: string): string {
    MailPrefix + email + ")"
  }

  /** `f"(|(mail={email})(proxyAddresses=smtp:{email}))"`: the primary address, or an
      `smtp:` proxy address, equals the email. */
  function MailOrAliasFilter(email: string): string {
    "(|" + MailPrefix + email + AliasInfix + email + "))"
  }

  /** The assertion value of a primary-address filter, if the text has that shape. */
  function ParseMailFilter(filter: string): Option<string> {
    if |filter| >= 7 && filter[..6] == MailPrefix && filter[|filter| - 1] == ')'
    then Some(filter[6..|filter| - 1])
    else None
  }

  /** The email of a primary-or-alias filter, if the text has that shape with the
      same value in both places: `(|(mail=`, the value, the alias infix, the same
      value again, and `))`. */
  function ParseMailOrAliasFilter(filter: string): Option<string> {
    if |filter| >= 32 && (|filter| - 32) % 2 == 0 then
      var n := (|filter| - 32) / 2;
      if && filter[..8] == "(|" + MailPrefix
         && filter[8 + n..30 + n] == AliasInfix
         && filter[30 + n..30 + 2 * n] == filter[8..8 + n]
         && filter[30 + 2 * n..] == "))"
      then Some(filter[8..8 + n])
      else None
    else None
  }

  /** Whatever the email holds, the filter carries it unchanged and it can be read back. */
  lemma MailFilterRoundTrip(email: string)
    ensures ParseMailFilter(MailFilter(email)) == Some(email)
  {
  }

  /** Only filters built by `MailFilter` parse, and they parse to their email. */
  lemma MailFilterParsedIsBuilt(filter: string, email: string)
    requires ParseMailFilter(filter) == Some(email)
    ensures MailFilter(email) == filter
  {
  }

  /** Whatever the email holds, the two-branch filter carries it unchanged twice. */
  lemma MailOrAliasRoundTrip(email: string)
    ensures ParseMailOrAliasFilter(MailOrAliasFilter(email)) == Some(email)
  {
  }

  /** Only filters built by `MailOrAliasFilter` parse, and they parse to their email. */
  lemma MailOrAliasParsedIsBuilt(filter: string, email: string)
    requires ParseMailOrAliasFilter(filter) == Some(email)
    ensures MailOrAliasFilter(email) == filter
  {
  }

  /** Distinct emails give distinct filters of either kind. */
  lemma FiltersInjective(e1: string, e2: string)
    requires e1 != e2
    ensures MailFilter(e1) != MailFilter(e2)
    ensures MailOrAliasFilter(e1) != MailOrAliasFilter(e2)
  {
    MailFilterRoundTrip(e1);
    MailFilterRoundTrip(e2);
    MailOrAliasRoundTrip(e1);
    MailOrAliasRoundTrip(e2);
  }
}
