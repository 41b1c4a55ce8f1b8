# TVAD directory-lookup core, modelled in Dafny

TVAD is a small Flask tool in three revisions (`tvldap2.py`, `tvldap.py`,
`tvldap_extreme.py`). A user uploads a list of email addresses. The tool looks
each one up in Active Directory over LDAP and returns a spreadsheet with
display name, office, department, title and, in the latest revision, email
aliases. This project models the deterministic logic inside that glue:

- **Server autodetection** (`get_ldap_details`, module `Discovery`). The tool
  scans the text printed by `nslookup -type=SRV _ldap._tcp` and takes the host
  from the first line whose lower-cased text contains `svr hostname`. It then
  builds a search base, a distinguished name in the string form of RFC 4514:
  `DC=<label>` for every domain label after the first, joined by `,`.
- **Current identity** (`get_current_user`, module `Identity`): `DOMAIN\user`,
  or the bare user name when the domain is empty.
- **Search filters** (module `LdapFilter`). These are the strings of section 3
  of RFC 4515: `(mail=<email>)` in the first two revisions, and
  `(|(mail=<email>)(proxyAddresses=smtp:<email>))` in the latest. The email is
  inserted verbatim, and no RFC 4515 escaping is applied.
- **Record normalisation** (`search_ad`, module `Directory`). A directory
  answer becomes one flat record, with `'Not Found'`, `''` and `'Error: …'` as
  the defaults. The directory is a function from the credentials, the bind
  mechanism (NTLM, or the library's default simple bind) and the filter text
  to an answer. The answer is either a failure message or a sequence of
  entries with optional attributes.
- **Progress stream** (module `EventStream`). Events use the
  `text/event-stream` format of section 9.2 of the WHATWG HTML Living Standard:
  `data: Processing i/total` followed by a blank line, then `data: COMPLETE`.
  A decoder for the part of the format the tool writes serves as the inverse.
- **Batch drivers** (module `Batch`). These cover the email list taken from
  the upload, one lookup per email, the report rows and the event stream, for
  each revision:
  - the thread-pool generator of `tvldap_extreme.py`;
  - the sequential generator of `tvldap.py`;
  - the synchronous upload handler of `tvldap2.py`.

Python's `str.split()`, `str.split(sep)`, `str.strip()`, `str.lower()`,
`sep.join()` and f-string number formatting are defined in module `Text`.
Each of these, except `str.lower()`, has a lemma that ties its result back to
its input:
- `split(sep)` and `join` are inverses of each other.
- A number's decimal rendering reads back as that number.
- `strip()` returns the slice of its input between the leading and the trailing
  whitespace.
- the tokens of `split()`, concatenated, are exactly the input's non-whitespace
  characters, and its last token is the input's last run of non-whitespace.

`str.lower()` is a character-by-character map, so it has no such lemma.

Three behaviours differ between the revisions or are easy to misread. In each
case the model follows the code:

- The pooled revision consumes its futures in submission order
  (`tvldap_extreme.py:104-107`), so its report is in input order, not in
  completion order.
- Only the latest revision catches lookup errors. In `tvldap.py` and
  `tvldap2.py` a failing lookup ends the batch. The stream stops without
  `COMPLETE`, and no spreadsheet is produced.
- In `tvldap_extreme.py`, a found entry without a display name gets
  `'Not Found'`. The earlier revisions give it `''` (see
  `Directory.RevisionsAgree`).

## Model

| member | source | states |
|---|---|---|
| `Discovery.DetectLdapDetails` | tvldap_extreme.py:37-52 | The loop with `break` returns the server picked by the first matching line of the output split at `\n`, and the search base derived from that server. |
| `Discovery.HostnameLineHasToken` | tvldap_extreme.py:44-45 | A line containing `svr hostname` (ASCII case-insensitive) always has a whitespace-separated token, so `line.split()[-1]` cannot raise. |
| `Discovery.HostToken` | tvldap_extreme.py:45 | The server taken from a matching line is its last whitespace-separated token. That token is non-empty and has no whitespace, so the trailing `.strip()` changes nothing. |
| `Discovery.ServerOfLines` | tvldap_extreme.py:41-46 | The detected server is either `""` or a non-empty word without whitespace. |
| `Discovery.FirstMatchWins` | tvldap.py:23-26 | If line k is the first matching line, the server is the last token of line k. |
| `Discovery.LaterLinesIgnored` | tvldap_extreme.py:43-46 | Lines after a matching line never change the server. |
| `Discovery.NoServerIffNoMatch` | tvldap.py:20-26 | The server is `""` exactly when no line matches (both directions). |
| `Discovery.SearchBaseEmptyIff` | tvldap_extreme.py:47-50 | The search base is `""` exactly when the server has no `.`. This covers the empty server. |
| `Discovery.SearchBaseIsDomain` | tvldap.py:29-31 | There is one `DC=` component per dot of the host name. The host name equals its first label, a `.`, and the labels joined by `.` in the same order. (Component k being `DC=` + label k is the definition, restated.) |
| `Discovery.SearchBaseSplits` | tvldap_extreme.py:48-49 | When the host name has no `,`, splitting the search base at `,` gives back exactly the `DC=` components in order. |
| `Discovery.IsHostnameLine` | tvldap_extreme.py:44 | Definition of the test `"svr hostname" in line.lower()`, also at tvldap.py:24. Its properties are stated by `Discovery.HostnameLineHasToken`, `Discovery.FirstMatchWins` and `Discovery.NoServerIffNoMatch`. |
| `Discovery.DomainLabels` | tvldap_extreme.py:48 | Definition of `ldap_server.split(".")[1:]`. Its properties are stated by `Discovery.SearchBaseIsDomain`: there is one label per dot, and the host is its first label followed by the labels joined with `.`. |
| `Discovery.DomainComponents` | tvldap_extreme.py:49 | Definition of `[f"DC={part}" for part in domain_parts]`. Its properties are stated by `Discovery.SearchBaseSplits` and `Discovery.SearchBaseIsDomain`. |
| `Discovery.SearchBaseOf` | tvldap_extreme.py:47-50 | Definition of the search base. Its properties are stated by `Discovery.SearchBaseEmptyIff`, `Discovery.SearchBaseIsDomain` and `Discovery.SearchBaseSplits`. |
| `Identity.CurrentUser` | tvldap_extreme.py:54-58 | With an empty domain the identity is the user name. Otherwise it is the domain, one backslash and the user name, at those positions. |
| `Identity.IdentityRoundTrip` | tvldap.py:41-43 | Splitting at the first backslash recovers domain and user, provided the domain holds no backslash and, when the domain is empty, the user holds none either. |
| `LdapFilter.MailFilter` | tvldap.py:58 | Definition of the `(mail=…)` filter, also used at tvldap2.py:16. Its properties are stated by `LdapFilter.MailFilterRoundTrip`, `LdapFilter.MailFilterParsedIsBuilt` and `LdapFilter.FiltersInjective`. |
| `LdapFilter.MailOrAliasFilter` | tvldap_extreme.py:72 | Definition of the primary-or-alias filter. Its properties are stated by `LdapFilter.MailOrAliasRoundTrip`, `LdapFilter.MailOrAliasParsedIsBuilt` and `LdapFilter.FiltersInjective`. |
| `LdapFilter.MailFilterRoundTrip` | tvldap.py:58 | The primary-address filter carries any email unchanged, including RFC 4515 special characters, and parses back to it. |
| `LdapFilter.MailFilterParsedIsBuilt` | tvldap2.py:16 | Every text that parses as a primary-address filter is exactly `(mail=` + value + `)`. |
| `LdapFilter.MailOrAliasRoundTrip` | tvldap_extreme.py:72 | The primary-or-alias filter carries the email verbatim in both branches and parses back to it. |
| `LdapFilter.MailOrAliasParsedIsBuilt` | tvldap_extreme.py:72 | Every text that parses as a primary-or-alias filter is exactly the filter built from the parsed email. |
| `LdapFilter.FiltersInjective` | tvldap_extreme.py:72 | Distinct emails give distinct filters of both kinds. |
| `Directory.ExtremeRow` | tvldap_extreme.py:75-89 | Email is always the input. A failure gives `Error: <msg>` with every other field `""`. No entry gives `Not Found` with every other field `""`. Otherwise only the first entry is used: a missing displayName gives `Not Found`, other missing attributes give `""`, and Aliases is the proxy addresses joined by `, `. |
| `Directory.SearchAd` | tvldap_extreme.py:60-89 | `search_ad` never fails. Its record names the email searched for, a directory failure becomes an error record, and an empty answer becomes a `Not Found` record. |
| `Directory.ValueOrEmpty` | tvldap_extreme.py:80-82 | Definition of `entry.attr.value if entry.attr else ''`, also at tvldap.py:64-67. Its uses are stated by the contracts of `Directory.ExtremeRow` and `Directory.InfoOf`. |
| `Directory.ErrorIsNotNotFound` | tvldap_extreme.py:88-89 | An error record's name starts with `Error: ` and is never `Not Found`. |
| `Directory.OnlyFirstEntryUsed` | tvldap_extreme.py:75-76 | Entries after the first have no effect on the record. |
| `Directory.InfoOf` | tvldap.py:61-69 | The answer maps to a result as follows. A failure propagates with its message. No entries gives `None`. Otherwise the result is the first entry's four attributes, each `""` when missing, so a missing displayName gives `""`. |
| `Directory.SearchAdBasic` | tvldap2.py:13-27 | The lookup raises exactly when the directory fails, and it returns `None` exactly when no entry matches the `(mail=…)` filter. |
| `Directory.RowFromInfo` | tvldap.py:78-84 | The row's Email is the input email and it has no aliases. `None` gives `Not Found` with other fields `""`. Otherwise the four values are copied unchanged. |
| `Directory.RevisionsAgree` | tvldap.py:61-69 | On any successful answer, the latest and the earlier revisions agree on Email, Office, Department and Title. The names differ exactly when the first entry lacks a displayName, and then read `Not Found` and `""`. |
| `EventStream.SseEvent` | tvldap_extreme.py:94 | Definition of one event: `data: `, the payload, and a blank line. The same shape is used at tvldap_extreme.py:108 and 113. Its inverse is `EventStream.Decode`, and `EventStream.DecodeEvents` proves the round trip. |
| `EventStream.ProgressPayload` | tvldap_extreme.py:108 | Definition of `Processing {index}/{total}`. Its properties are stated by `EventStream.ProgressRoundTrip` and `EventStream.ProgressSingleLine`. |
| `EventStream.DecodeEvents` | tvldap_extreme.py:108-113 | A stream of `data: <p>\n\n` events whose payloads contain no line feed decodes to exactly those payloads, in order. |
| `EventStream.ProgressRoundTrip` | tvldap_extreme.py:108 | `Processing {index}/{total}` parses back to the pair (index, total). |
| `EventStream.ProgressSingleLine` | tvldap.py:85 | A progress message contains neither a line feed nor a carriage return, so it is one event line. |
| `EventStream.ProgressPrefixDecodes` | tvldap.py:76-85 | The first `count` progress events decode to messages numbered 1..count of the same total. |
| `EventStream.CompletedStream` | tvldap.py:74-94 | A completed stream decodes to `total` progress messages numbered 1..total in ascending order, followed by exactly one `COMPLETE`, which is not a progress message. |
| `Text.Tokens` | tvldap_extreme.py:45 | Every token of `str.split()` is non-empty and free of whitespace. |
| `Text.TokensEmptyIff` | tvldap_extreme.py:45 | `str.split()` gives no token exactly when the string is blank (both directions). |
| `Text.TokensCover` | tvldap_extreme.py:45 | The tokens of `str.split()`, concatenated, are exactly the non-whitespace characters of the string, in order. |
| `Text.LastToken` | tvldap.py:25 | `str.split()[-1]` is a slice `s[i..j]` of the string. That slice is a non-empty run of non-whitespace. It starts at the beginning of the string or right after whitespace, and only whitespace follows it. |
| `Text.Strip` | tvldap_extreme.py:98 | `str.strip()` returns a string that is no longer than its input and neither starts nor ends with whitespace. It is empty exactly when the input is blank. |
| `Text.StripIsInfix` | tvldap.py:118 | `str.strip()` is a slice `s[i..j]` of its input, with only whitespace before `i` and after `j`. Together with the contract of `Text.Strip`, this means it is the input with the leading and trailing whitespace cut off. |
| `Text.Split` | tvldap_extreme.py:43 | `s.split(d)` has at least one part, and no part contains `d`. `Text.JoinSplit`, `Text.SplitJoin` and `Text.SplitCount` relate it to its input. |
| `Text.Join` | tvldap_extreme.py:49 | Definition of `sep.join(parts)`. Its properties are stated by `Text.JoinSplit` and `Text.SplitJoin`. |
| `Text.Lower` | tvldap_extreme.py:44 | Definition of `s.lower()`: each character is mapped by `Text.LowerChar`, which is ASCII only. |
| `Text.Contains` | tvldap_extreme.py:44 | Definition of the `in` test on strings: the pattern occurs at some position. `Text.ContainsFirstChar` shows that the first character of a non-empty pattern then occurs in the string. |
| `Text.JoinSplit` | tvldap_extreme.py:43 | Joining `s.split(d)` with `d` gives back `s`. |
| `Text.SplitJoin` | tvldap.py:31 | Splitting a `d`-join of `d`-free parts gives back the parts. |
| `Text.SplitCount` | tvldap.py:30 | `s.split(d)` has one more part than `s` has occurrences of `d`. |
| `Text.Decimal` | tvldap_extreme.py:108 | `f"{n}"` is a non-empty string of digits with no leading zero. `Text.DecimalRoundTrip` shows that it reads back as `n`. |
| `Text.DecimalRoundTrip` | tvldap_extreme.py:108 | The decimal rendering of a number reads back as that number. |
| `Batch.KeptEmails` | tvldap.py:118 | The email list has no more entries than the upload has lines. |
| `Batch.KeptEmailsStripped` | tvldap_extreme.py:98 | Every kept email is non-empty and already stripped. |
| `Batch.KeptEmailsAppend` | tvldap2.py:39 | Keeping distributes over concatenation of line lists, so emails come out in the order of their lines. |
| `Batch.KeptEmailsOfLine` | tvldap.py:118 | A blank or whitespace-only line contributes nothing. Any other line contributes its stripped text. |
| `Batch.KeptEmailsNoBlank` | tvldap.py:118 | Without blank lines there is exactly one email per line, the k-th being the stripped k-th line. |
| `Batch.GenerateProgressPooled` | tvldap_extreme.py:91-113 | A missing file gives the single event `data: ERROR - No email file found` and no report. Otherwise there is one record per kept email in input order, each the `search_ad` record for that email, and the events are `Processing i/total` for i = 1..total, then `COMPLETE`. |
| `Batch.FirstFailure` | tvldap.py:76-77 | This is the index of the first email whose lookup raises: every earlier lookup succeeds, and the one at the index fails. |
| `Batch.GenerateProgressSequential` | tvldap.py:72-94 | If no lookup raises, the result is the full stream ending in `COMPLETE` and one row per email in order. Otherwise the stream has exactly one progress event per email before the first failing one, with no `COMPLETE`, and the output is not replaced. |
| `Batch.ProcessUpload` | tvldap2.py:29-56 | The batch succeeds exactly when no lookup raises. On success it yields one row per kept email, in order. On failure the error is that of the first failing lookup. |
| `Batch.RowsForInOrder` | tvldap2.py:42-50 | Row k carries email k, and an email without a directory entry gives `Not Found` with every other field blank. |

## Left out

- The `nslookup` shell call (`tvldap_extreme.py:40`, `tvldap.py:18`): the model starts from the captured output text. The `except` branches of `get_ldap_details` return `("", "")` only when the shell call fails. The parsing itself cannot raise (`Discovery.HostnameLineHasToken`).
- `os.environ` and `getpass.getuser()`: the domain and the user name are parameters. The fallback in `tvldap.py:44-46`, taken when `getuser` raises, is not modelled.
- ldap3 server, connection, bind and search: these are replaced by the `Directory` function.
  - Each attribute is one optional string, and an attribute that is present with no value counts as missing. Multi-valued `.value` lists are not modelled.
  - Proxy addresses are strings, so `str(a)` is the identity.
- pandas/Excel serialisation, `BytesIO`, `send_file` and the download route: a report is the sequence of rows given to the spreadsheet writer.
- Flask routes, templates, form parsing, `Response`/`stream_with_context`, and the process-wide globals: the uploaded file is a sequence of lines, and the credentials are explicit parameters.
  - The UTF-8 decoding of uploaded bytes is not modelled, including its decode errors.
  - Calling `tvldap.py`'s progress route before any upload is not modelled. It fails on an undefined global.
- The temp files of `tvldap_extreme.py` (`tvldap_extreme.py:142-144` writes stripped lines, and `generate_progress` reads them back): the email file is given as its lines, or `None` when it does not exist. Text-mode newline translation is not modelled.
- Thread-pool concurrency: the pooled revision is modelled as all lookups computed first, then consumed in submission order. That is the order its loop reads them.
- `time.sleep`, the runtime `pip install`, the PyInstaller base directory and the unused MD4 import: these are side effects with no bearing on the results.
- `Text.IsSpace`: it is the six-character whitespace set of `bytes.strip()`, which is the strip at tvldap.py:118 and tvldap2.py:39. Python's `str.split()` and `str.strip()` (tvldap_extreme.py:45, 98 and 144, tvldap.py:25) also count the separators U+001C to U+001F and non-ASCII whitespace. The model treats those characters as ordinary characters.
- `Text.LowerChar`: it folds ASCII letters only. Python's `str.lower()` also folds non-ASCII letters. None of these fold into a character of the ASCII key `svr hostname`.
- `EventStream.Decode`: it reads only the form the tool writes, which is LF line ends and one `data` field per event. It is not a full reader of section 9.2 of the WHATWG HTML Living Standard.
