/**
 * The bgp.tools client: the parser of its WHOIS table, the address check made before the
 * query is sent, and the assembly of the answer with the upstream list. The socket exchange
 * and the scraping of the upstream page are given functions.
 */
module BgpToolsClient {
  import opened Wrappers
  import opened Text
  import opened Net

  datatype Upstream = Upstream(asn: string, name: Option<string>)

  datatype BgpToolsInfo = BgpToolsInfo(
    asn: Option<string>,
    ip: string,
    prefix: Option<string>,
    country: Option<string>,
    registry: Option<string>,
    allocatedOn: Option<string>,
    asName: Option<string>,
    upstreams: seq<Upstream>,
    rawResponse: Option<string>)

  /** A line that is no table row: blank once trimmed, a `#` comment, or the `AS ` header. */
  predicate IsHeader(line: string) {
    var t := Trim(line);
    t == [] || t[0] == '#' || "AS " <= t
  }

  /** The cells of a line: the trimmed line split on `|`, each cell trimmed. */
  function Columns(line: string): (cells: seq<string>)
    ensures |cells| == |Split(Trim(line), '|')|
  {
    var parts := Split(Trim(line), '|');
    seq(|parts|, j requires 0 <= j < |parts| => Trim(parts[j]))
  }

  /** The cells of a line that counts as a row: not a header, and at least 7 cells. */
  function RowOf(line: string): (row: Option<seq<string>>)
    ensures row.Some? ==> |row.value| >= 7 && !IsHeader(line)
  {
    if IsHeader(line) then None
    else
      var cells := Columns(line);
      if |cells| >= 7 then Some(cells) else None
  }

  /** A line that is not a header is a row exactly when it holds at least six `|`. */
  lemma RowNeedsSixBars(line: string)
    requires !IsHeader(line)
    ensures RowOf(line).Some? <==> Count(Trim(line), '|') >= 6
  {
    SplitCount(Trim(line), '|');
  }

  /** The first value `f` gives along `xs`. */
  function FirstOf<T, R>(xs: seq<T>, f: T -> Option<R>): Option<R> {
    if xs == [] then None else f(xs[0]).OrElse(FirstOf(xs[1..], f))
  }

  /** `FirstOf` finds a value exactly when `f` gives one somewhere, and then it is the earliest. */
  lemma {:induction false} FirstOfIsFirst<T, R>(xs: seq<T>, f: T -> Option<R>)
    ensures FirstOf(xs, f).None? <==> forall j :: 0 <= j < |xs| ==> f(xs[j]).None?
    ensures FirstOf(xs, f).Some? ==>
      exists j :: 0 <= j < |xs| && f(xs[j]) == FirstOf(xs, f)
        && forall i :: 0 <= i < j ==> f(xs[i]).None?
  {
    if xs != [] {
      var rest := xs[1..];
      FirstOfIsFirst(rest, f);
      if f(xs[0]).None? {
        if FirstOf(xs, f).Some? {
          var j :| 0 <= j < |rest| && f(rest[j]) == FirstOf(rest, f)
            && forall i :: 0 <= i < j ==> f(rest[i]).None?;
          assert xs[j + 1] == rest[j];
          forall i | 0 <= i < j + 1 ensures f(xs[i]).None? {
            if i > 0 {
              assert xs[i] == rest[i - 1];
            }
          }
        } else {
          forall j | 0 <= j < |xs| ensures f(xs[j]).None? {
            if j > 0 {
              assert xs[j] == rest[j - 1];
            }
          }
        }
      } else {
        assert f(xs[0]) == FirstOf(xs, f);
      }
    }
  }

  /** The cells of the first row among `lines`. */
  function FirstRow(lines: seq<string>): (row: Option<seq<string>>)
    ensures row.Some? ==> |row.value| >= 7
  {
    FirstRowIsFirst(lines);
    FirstOf(lines, RowOf)
  }

  /** A row is found exactly when some line is one, and then it is the earliest. */
  lemma FirstRowIsFirst(lines: seq<string>)
    ensures FirstOf(lines, RowOf).None? <==> forall j :: 0 <= j < |lines| ==> RowOf(lines[j]).None?
    ensures FirstOf(lines, RowOf).Some? ==>
      exists j :: 0 <= j < |lines| && RowOf(lines[j]) == FirstOf(lines, RowOf)
        && forall i :: 0 <= i < j ==> RowOf(lines[i]).None?
  {
    FirstOfIsFirst(lines, RowOf);
  }

  /**
   * The answer the table gives for `ip`: the cells 0, 2, 3, 4, 5 and 6 of its first row
   * (cell 1 is not used), or no fields when it has no row.
   */
  function Parsed(response: string, ip: string): (info: BgpToolsInfo) {
    match FirstRow(Lines(response))
    case None => BgpToolsInfo(None, ip, None, None, None, None, None, [], Some(response))
    case Some(c) =>
      BgpToolsInfo(Some(c[0]), ip, Some(c[2]), Some(c[3]), Some(c[4]), Some(c[5]), Some(c[6]), [], Some(response))
  }

  /** Parses the table, stopping at its first row. */
  method ParseWhoisResponse(response: string, ip: string) returns (info: BgpToolsInfo)
    ensures info == Parsed(response, ip)
  {
    var lines := Lines(response);
    var asn: Option<string> := None;
    var prefix: Option<string> := None;
    var country: Option<string> := None;
    var registry: Option<string> := None;
    var allocatedOn: Option<string> := None;
    var asName: Option<string> := None;
    var i := 0;
    while i < |lines|
      invariant 0 <= i <= |lines|
      invariant FirstOf(lines, RowOf) == FirstOf(lines[i..], RowOf)
      invariant asn.None? && prefix.None? && country.None?
      invariant registry.None? && allocatedOn.None? && asName.None?
    {
      match RowOf(lines[i]) {
        case None =>
        case Some(parts) =>
          asn := Some(parts[0]);
          prefix := Some(parts[2]);
          country := Some(parts[3]);
          registry := Some(parts[4]);
          allocatedOn := Some(parts[5]);
          asName := Some(parts[6]);
          break;
      }
      assert lines[i..][1..] == lines[i + 1..];
      i := i + 1;
    }
    info := BgpToolsInfo(asn, ip, prefix, country, registry, allocatedOn, asName, [], Some(response));
  }

  /**
   * Queries the bgp.tools WHOIS service for `ip`. Text that is no address is refused before
   * anything is sent; otherwise the line `ip` CR LF is sent and the reply parsed. The
   * exchange is a given function from the query to the reply text or an I/O error: an error
   * only when connecting, setting a timeout or writing fails, while a read that fails part
   * way ends the reply, which is then the text read so far. `sent` is the query that went out.
   */
  method QueryWhois(ip: string, parseIp: string -> Option<IpAddr>, exchange: string -> Result<string, string>)
    returns (r: Result<BgpToolsInfo, string>, sent: Option<string>)
    ensures parseIp(ip).None? ==> r.Err? && sent.None?
    ensures parseIp(ip).Some? ==> sent == Some(ip + "\r\n")
    ensures parseIp(ip).Some? ==>
      match exchange(ip + "\r\n")
      case Err(_) => r.Err?
      case Ok(response) => r == Ok(Parsed(response, ip))
  {
    if parseIp(ip).None? {
      return Err("invalid IP address: " + ip), None;
    }
    var query := ip + "\r\n";
    sent := Some(query);
    match exchange(query) {
      case Err(e) =>
        r := Err(e);
      case Ok(response) =>
        var info := ParseWhoisResponse(response, ip);
        r := Ok(info);
    }
  }

  /**
   * Looks `ip` up: the WHOIS answer, with the upstreams of its prefix when it names one.
   * A failed upstream fetch leaves the list empty and the lookup still succeeds;
   * `fetchedFor` is the prefix whose upstreams were requested.
   */
  method Lookup(ip: string, parseIp: string -> Option<IpAddr>, exchange: string -> Result<string, string>,
                fetchUpstreams: string -> Result<seq<Upstream>, string>)
    returns (r: Result<BgpToolsInfo, string>, fetchedFor: Option<string>)
    ensures parseIp(ip).None? ==> r.Err? && fetchedFor.None?
    ensures parseIp(ip).Some? ==>
      match exchange(ip + "\r\n")
      case Err(_) => r.Err? && fetchedFor.None?
      case Ok(response) =>
        var w := Parsed(response, ip);
        && fetchedFor == w.prefix
        && r == Ok(w.(upstreams := if w.prefix.Some? && fetchUpstreams(w.prefix.value).Ok?
                                   then fetchUpstreams(w.prefix.value).value else []))
  {
    fetchedFor := None;
    var whois, _ := QueryWhois(ip, parseIp, exchange);
    if whois.Err? {
      return Err(whois.error), None;
    }
    var w := whois.value;
    var info := BgpToolsInfo(w.asn, w.ip, w.prefix, w.country, w.registry, w.allocatedOn, w.asName, [], w.rawResponse);
    if info.prefix.Some? {
      fetchedFor := info.prefix;
      match fetchUpstreams(info.prefix.value) {
        case Ok(upstreams) =>
          info := info.(upstreams := upstreams);
        case Err(_) =>
      }
    }
    r := Ok(info);
  }
}
