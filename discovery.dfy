/**
 * Directory-server autodetection (`get_ldap_details`): the parsing of the text
 * printed by `nslookup -type=SRV _ldap._tcp`, and the search base derived from
 * the host name found there. The search base is a distinguished name in the
 * string form of RFC 4514: one `DC=<label>` component per domain label of the
 * host after the first, joined by `,`.
 */
module Discovery {
  import opened Text

  /** The marker, matched case-insensitively, of the line that names a domain controller. */
  const HostnameKey := "svr hostname"

  /** `"svr hostname" in line.lower()`. */
  predicate IsHostnameLine(line: string) {
    Contains(Lower(line), HostnameKey)
  }

  /** A line that matches always has a token, so `line.split()[-1]` cannot fail. */
  lemma HostnameLineHasToken(line: string)
    requires IsHostnameLine(line)
    ensures Tokens(line) != []
  {
    ContainsFirstChar(Lower(line), HostnameKey);
    var i :| 0 <= i < |line| && Lower(line)[i] == 's';
    TokensNonEmpty(line, i);
  }

  /** `line.split()[-1].strip()`: the last token of a matching line, unchanged by the strip. */
  function HostToken(line: string): (host: string)
    requires IsHostnameLine(line)
    ensures IsWord(host)
    ensures Tokens(line) != [] && host == Tokens(line)[|Tokens(line)| - 1]
  {
    HostnameLineHasToken(line);
    var tokens := Tokens(line);
    var host := Strip(tokens[|tokens| - 1]);
    host
  }

  /** The server named by the first matching line, or "" when no line matches. */
  function ServerOfLines(lines: seq<string>): (server: string)
    ensures server == "" || IsWord(server)
  {
    if lines == [] then ""
    else if IsHostnameLine(lines[0]) then HostToken(lines[0])
    else ServerOfLines(lines[1..])
  }

  /** `ldap_server.split(".")[1:]`: the domain labels after the host's own label. */
  function DomainLabels(server: string): seq<string> {
    Split(server, '.')[1..]
  }

  /** `[f"DC={part}" for part in domain_parts]`. */
  function DomainComponents(labels: seq<string>): seq<string> {
    seq(|labels|, k requires 0 <= k < |labels| => "DC=" + labels[k])
  }

  /** The search base derived from a detected server name. */
  function SearchBaseOf(server: string): string {
    if server != "" && '.' in server then Join(",", DomainComponents(DomainLabels(server))) else ""
  }

  /**
   * `get_ldap_details` after the shell call: scan the lines of the captured
   * output, stop at the first one naming a domain controller, and derive the
   * search base from the host found there.
   */
  method DetectLdapDetails(output: string) returns (server: string, searchBase: string)
    ensures server == ServerOfLines(Split(output, '\n'))
    ensures searchBase == SearchBaseOf(server)
  {
    var lines := Split(output, '\n');
    server := "";
    searchBase := "";
    var i := 0;
    while i < |lines|
      invariant 0 <= i <= |lines|
      invariant server == ""
      invariant ServerOfLines(lines[i..]) == ServerOfLines(lines)
    {
      assert lines[i..][1..] == lines[i + 1..];
      if IsHostnameLine(lines[i]) {
        HostnameLineHasToken(lines[i]);
        var tokens := Tokens(lines[i]);
        server := Strip(tokens[|tokens| - 1]);
        break;
      }
      i := i + 1;
    }
    if server != "" && '.' in server {
      var domainParts := Split(server, '.')[1..];
      searchBase := Join(",", DomainComponents(domainParts));
    }
  }

  /** The first matching line decides the server. */
  lemma {:induction false} FirstMatchWins(lines: seq<string>, k: nat)
    requires k < |lines| && IsHostnameLine(lines[k])
    requires forall j :: 0 <= j < k ==> !IsHostnameLine(lines[j])
    ensures ServerOfLines(lines) == HostToken(lines[k])
  {
    if k > 0 {
      FirstMatchWins(lines[1..], k - 1);
    }
  }

  /** Lines after a matching one are never looked at. */
  lemma {:induction false} LaterLinesIgnored(lines: seq<string>, later: seq<string>, k: nat)
    requires k < |lines| && IsHostnameLine(lines[k])
    ensures ServerOfLines(lines + later) == ServerOfLines(lines)
  {
    if !IsHostnameLine(lines[0]) {
      assert (lines + later)[1..] == lines[1..] + later;
      LaterLinesIgnored(lines[1..], later, k - 1);
    }
  }

  /** The server is empty exactly when no line matches. */
  lemma {:induction false} NoServerIffNoMatch(lines: seq<string>)
    ensures ServerOfLines(lines) == "" <==> forall j :: 0 <= j < |lines| ==> !IsHostnameLine(lines[j])
  {
    if lines != [] && !IsHostnameLine(lines[0]) {
      NoServerIffNoMatch(lines[1..]);
      assert forall j :: 1 <= j < |lines| ==> lines[j] == lines[1..][j - 1];
    }
  }

  /** The search base is empty exactly when the server has no dot (an empty server has none). */
  lemma SearchBaseEmptyIff(server: string)
    ensures SearchBaseOf(server) == "" <==> '.' !in server
  {
    if '.' in server {
      SplitCount(server, '.');
      assert multiset(server)['.'] > 0;
      var labels := DomainLabels(server);
      assert |labels| >= 1;
      var dcs := DomainComponents(labels);
      if |dcs| > 1 {
        assert Join(",", dcs) == dcs[0] + "," + Join(",", dcs[1..]);
      }
      assert |dcs[0]| >= 3;
    }
  }

  /** One `DC=` component per dot of the host name, and the host name is its first
      label, a dot, and the components' labels joined by dots, in their order. */
  lemma {:induction false} SearchBaseIsDomain(server: string)
    requires '.' in server
    ensures |DomainComponents(DomainLabels(server))| == multiset(server)['.']
    ensures server == Split(server, '.')[0] + "." + Join(".", DomainLabels(server))
    ensures forall k :: 0 <= k < |DomainLabels(server)| ==>
      DomainComponents(DomainLabels(server))[k] == "DC=" + DomainLabels(server)[k]
  {
    SplitCount(server, '.');
    JoinSplit(server, '.');
    var parts := Split(server, '.');
    assert |parts| >= 2;
    assert Join(".", parts) == parts[0] + "." + Join(".", parts[1..]);
  }

  /** When no label holds a comma, splitting the search base at `,` recovers the
      `DC=` components one by one (RFC 4514 escaping is never applied, so a comma
      inside a label would break this). */
  lemma {:induction false} SearchBaseSplits(server: string)
    requires '.' in server && ',' !in server
    ensures Split(SearchBaseOf(server), ',') == DomainComponents(DomainLabels(server))
  {
    SplitCount(server, '.');
    var labels := DomainLabels(server);
    var dcs := DomainComponents(labels);
    forall k | 0 <= k < |dcs| ensures ',' !in dcs[k] {
      assert labels[k] == Split(server, '.')[k + 1];
      assert dcs[k] == "DC=" + labels[k];
      NoCommaInParts(server, k + 1);
    }
    SplitJoin(dcs, ',');
  }

  /** A character absent from the host name is absent from each of its labels. */
  lemma {:induction false} NoCommaInParts(server: string, k: nat)
    requires ',' !in server && k < |Split(server, '.')|
    ensures ',' !in Split(server, '.')[k]
  {
    if server != [] {
      var rest := Split(server[1..], '.');
      NoCommaInParts(server[1..], if server[0] == '.' && k > 0 then k - 1 else k);
      if server[0] != '.' && k > 0 {
        assert Split(server, '.')[k] == rest[k];
      }
    }
  }
}
