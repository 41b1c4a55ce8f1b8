/**
 * The Directory Client: one search per email and the normalisation of the
 * answer into a flat record, in the three revisions of the tool.
 *
 * The directory itself (server, bind, search) is a function from the
 * credentials, the bind mechanism and the filter text to an `Answer`; a
 * `Failed` answer stands for any exception raised while connecting, binding
 * or searching, carrying its message.
 */
module Directory {
  import opened Wrappers
  import opened Text
  import opened LdapFilter

  /** The connection settings the form supplies. */
  datatype Credentials = Credentials(server: string, user: string, password: string, searchBase: string)

  /** NTLM bind (the streaming revisions) or the library's default simple bind (the first revision). */
  datatype Auth = Ntlm | SimpleBind

  /** One directory entry; an attribute that is absent or has no value is `None`. */
  datatype Entry = Entry(
    displayName: Option<string>,
    office: Option<string>,
    department: Option<string>,
    title: Option<string>,
    proxyAddresses: seq<string>)

  datatype Answer = Failed(message: string) | Found(entries: seq<Entry>)

  type Directory = (Credentials, Auth, string) -> Answer

  /** One row of the report. `aliases` is present only in the revision that reads proxy addresses. */
  datatype Row = Row(email: string, name: string, office: string, department: string, title: string, aliases: Option<string>)

  /** The four-field record `search_ad` returns in the first two revisions. */
  datatype Info = Info(name: string, office: string, department: string, title: string)

  const NotFound := "Not Found"
  const ErrorPrefix := "Error: "

  /** `entry.attr.value if entry.attr else ''`. */
  function ValueOrEmpty(attribute: Option<string>): string {
    if attribute.Some? then attribute.value else ""
  }

  /** An error record: the message in the name field, every other field blank. */
  predicate IsErrorRow(row: Row, message: string) {
    row == Row(row.email, ErrorPrefix + message, "", "", "", Some(""))
  }

  /** The record for an address with no match. */
  predicate IsNotFoundRow(row: Row, aliases: Option<string>) {
    row == Row(row.email, NotFound, "", "", "", aliases)
  }

  // ---------------------------------------------------------------------------
  // The streaming revision with aliases and per-row error capture.

  /** The record built from a directory answer: errors are captured, an empty
      answer is "Not Found", otherwise the first entry alone is used. */
  function ExtremeRow(email: string, answer: Answer): (row: Row)
    ensures row.email == email && row.aliases.Some?
    ensures answer.Failed? ==> IsErrorRow(row, answer.message)
    ensures answer == Found([]) ==> IsNotFoundRow(row, Some(""))
    ensures answer.Found? && answer.entries != [] ==>
      var entry := answer.entries[0];
      && row.name == (if entry.displayName.Some? then entry.displayName.value else NotFound)
      && row.office == ValueOrEmpty(entry.office)
      && row.department == ValueOrEmpty(entry.department)
      && row.title == ValueOrEmpty(entry.title)
      && row.aliases == Some(Join(", ", entry.proxyAddresses))
  {
    match answer
    case Failed(message) => Row(email, ErrorPrefix + message, "", "", "", Some(""))
    case Found(entries) =>
      if entries != [] then
        var entry := entries[0];
        Row(email,
            if entry.displayName.Some? then entry.displayName.value else NotFound,
            ValueOrEmpty(entry.office),
            ValueOrEmpty(entry.department),
            ValueOrEmpty(entry.title),
            Some(if entry.proxyAddresses != [] then Join(", ", entry.proxyAddresses) else ""))
      else
        Row(email, NotFound, "", "", "", Some(""))
  }

  /** `search_ad` of the streaming revision: it never fails, and the record is
      always about the email asked for. */
  function SearchAd(email: string, credentials: Credentials, directory: Directory): (row: Row)
    ensures row.email == email && row.aliases.Some?
    ensures var answer := directory(credentials, Ntlm, MailOrAliasFilter(email));
      && (answer.Failed? ==> IsErrorRow(row, answer.message))
      && (answer == Found([]) ==> IsNotFoundRow(row, Some("")))
  {
    ExtremeRow(email, directory(credentials, Ntlm, MailOrAliasFilter(email)))
  }

  /** An error record's name never reads "Not Found": failures stay distinguishable from misses. */
  lemma ErrorIsNotNotFound(email: string, message: string)
    ensures ExtremeRow(email, Failed(message)).name != NotFound
    ensures ExtremeRow(email, Failed(message)).name[..|ErrorPrefix|] == ErrorPrefix
  {
    assert ExtremeRow(email, Failed(message)).name[0] == 'E';
  }

  /** Entries after the first never matter. */
  lemma OnlyFirstEntryUsed(email: string, first: Entry, rest1: seq<Entry>, rest2: seq<Entry>)
    ensures ExtremeRow(email, Found([first] + rest1)) == ExtremeRow(email, Found([first] + rest2))
  {
  }

  // ---------------------------------------------------------------------------
  // The first two revisions: no error capture, no aliases.

  /** `search_ad` of the first two revisions on an answer: a raised exception
      propagates, no entry gives `None`, otherwise the first entry's four
      attributes with "" for each one missing. */
  function InfoOf(answer: Answer): (info: Result<Option<Info>, string>)
    ensures answer.Failed? <==> info.Failure?
    ensures answer.Failed? ==> info.error == answer.message
    ensures answer.Found? ==> (info.value.None? <==> answer.entries == [])
    ensures answer.Found? && answer.entries != [] ==>
      var entry := answer.entries[0];
      info.value.value == Info(ValueOrEmpty(entry.displayName), ValueOrEmpty(entry.office),
                               ValueOrEmpty(entry.department), ValueOrEmpty(entry.title))
  {
    match answer
    case Failed(message) => Failure(message)
    case Found(entries) =>
      if entries != [] then
        var entry := entries[0];
        Success(Some(Info(ValueOrEmpty(entry.displayName), ValueOrEmpty(entry.office),
                          ValueOrEmpty(entry.department), ValueOrEmpty(entry.title))))
      else Success(None)
  }

  /** `search_ad(email, …)` of the first two revisions, with its bind mechanism. */
  function SearchAdBasic(email: string, credentials: Credentials, auth: Auth, directory: Directory): (info: Result<Option<Info>, string>)
    ensures var answer := directory(credentials, auth, MailFilter(email));
      && (info.Failure? <==> answer.Failed?)
      && (info.Success? ==> (info.value.None? <==> answer.entries == []))
  {
    InfoOf(directory(credentials, auth, MailFilter(email)))
  }

  /** The record the batch loop builds from one lookup: `user_info.get(key, default)
      if user_info else default`, where the dict always holds all four keys. */
  function RowFromInfo(email: string, info: Option<Info>): (row: Row)
    ensures row.email == email && row.aliases.None?
    ensures info.None? ==> IsNotFoundRow(row, None)
    ensures info.Some? ==>
      row.name == info.value.name && row.office == info.value.office &&
      row.department == info.value.department && row.title == info.value.title
  {
    match info
    case None => Row(email, NotFound, "", "", "", None)
    case Some(i) => Row(email, i.name, i.office, i.department, i.title, None)
  }

  /**
   * The revisions agree on a successful answer, except for two things: the
   * later one adds aliases, and a found entry without a display name reads
   * "Not Found" there but "" in the earlier ones.
   */
  lemma RevisionsAgree(email: string, answer: Answer)
    requires answer.Found?
    ensures InfoOf(answer).Success?
    ensures var late := ExtremeRow(email, answer);
            var early := RowFromInfo(email, InfoOf(answer).value);
      && late.email == early.email && late.office == early.office
      && late.department == early.department && late.title == early.title
      && (late.name != early.name <==> answer.entries != [] && answer.entries[0].displayName.None?)
      && (late.name != early.name ==> late.name == NotFound && early.name == "")
  {
  }
}
