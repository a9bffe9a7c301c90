/**
 * The parser of a RIPE WHOIS reply: RPSL attribute lines `key: value` (section 2 of
 * RFC 2622) as a WHOIS server returns them (RFC 3912). Opening the connection and reading
 * the reply are not modelled; the parser receives the reply text.
 */
module WhoisClient {
  import opened Wrappers
  import opened Text

  datatype WhoisInfo = WhoisInfo(
    country: Option<string>,
    netname: Option<string>,
    descr: Option<string>,
    org: Option<string>,
    adminC: Option<string>,
    techC: Option<string>,
    mntBy: Option<string>,
    lastModified: Option<string>,
    rawResponse: string)

  /** One `key: value` line, both sides trimmed. */
  datatype Attribute = Attribute(key: string, value: string)

  /** A line that carries no attribute: blank once trimmed, or a `%` or `#` comment. */
  predicate IsComment(line: string) {
    var t := Trim(line);
    t == [] || t[0] == '%' || t[0] == '#'
  }

  /**
   * The attribute a line carries: the trimmed line is cut at its first `:`, and the key and
   * the value are trimmed again. Comments and lines without a `:` carry none.
   */
  function ParseLine(line: string): (a: Option<Attribute>)
    ensures IsComment(line) ==> a.None?
    ensures ':' !in line ==> a.None?
    ensures a.Some? ==> ':' !in a.value.key
  {
    if IsComment(line) then None
    else
      TrimKeepsChars(line, ':');
      SplitAttribute(Trim(line))
  }

  /** Cuts a trimmed line at its first `:`. */
  function SplitAttribute(t: string): (a: Option<Attribute>)
    ensures a.None? <==> ':' !in t
    ensures a.Some? ==> ':' !in a.value.key
  {
    match IndexOf(t, ':')
    case None => None
    case Some(i) =>
      TrimKeepsChars(t[..i], ':');
      Some(Attribute(Trim(t[..i]), Trim(t[i + 1..])))
  }

  /** Trimming only removes characters. */
  lemma TrimKeepsChars(s: string, c: char)
    ensures c in Trim(s) ==> c in s
  {
    var u := TrimStart(s);
    var t := TrimEnd(u);
    if c in t {
      SliceKeepsChars(u, 0, |t|, c);
      SliceKeepsChars(s, |s| - |u|, |s|, c);
    }
  }

  /** A character of a slice is a character of the whole. */
  lemma SliceKeepsChars(s: string, lo: nat, hi: nat, c: char)
    requires lo <= hi <= |s| && c in s[lo..hi]
    ensures c in s
  {
    var j :| 0 <= j < hi - lo && s[lo..hi][j] == c;
    assert s[lo + j] == c;
  }

  /** A key part free of `:` stays free of it once its leading blanks are trimmed. */
  lemma TrimStartNoColon(k: string)
    requires ':' !in k
    ensures ':' !in TrimStart(k)
  {
    var ks := TrimStart(k);
    forall j | 0 <= j < |ks| ensures ks[j] != ':' {
      assert ks[j] == k[|k| - |ks| + j];
    }
  }

  /** Trimming `k:v` trims the front of `k` and the back of `v` and keeps the `:`. */
  lemma TrimAroundColon(k: string, v: string)
    ensures Trim(k + ":" + v) == TrimStart(k) + [':'] + TrimEnd(v)
  {
    TrimAround(k, ':', v);
  }

  /** Trimming the front first does not change the fully trimmed text. */
  lemma TrimOfTrimStart(k: string)
    ensures Trim(TrimStart(k)) == Trim(k)
  {
    var ks := TrimStart(k);
    if ks != [] {
      TrimStartVisible(ks);
    }
  }

  /**
   * A line `k:v` whose key part holds no `:` and does not start a comment yields the key
   * and the value, each trimmed; the value keeps any further `:`.
   */
  lemma ParseLineSplitsAtFirstColon(k: string, v: string)
    requires ':' !in k
    requires TrimStart(k) == [] || (TrimStart(k)[0] != '%' && TrimStart(k)[0] != '#')
    ensures ParseLine(k + ":" + v) == Some(Attribute(Trim(k), Trim(v)))
  {
    var line := k + ":" + v;
    var ks := TrimStart(k);
    var ve := TrimEnd(v);
    TrimStartNoColon(k);
    TrimAroundColon(k, v);
    var t := Trim(line);
    assert t == ks + [':'] + ve;
    assert t[0] == if ks == [] then ':' else ks[0];
    NotComment(line, t[0]);
    SplitAttributeAt(ks, ve);
    TrimOfTrimStart(k);
    TrimOfTrimEnd(v);
  }

  lemma NotComment(line: string, first: char)
    requires Trim(line) != [] && Trim(line)[0] == first
    requires first != '%' && first != '#'
    ensures !IsComment(line) && ParseLine(line) == SplitAttribute(Trim(line))
  {
  }

  /** A `:` with none before it splits the text there. */
  lemma SplitAttributeAt(a: string, b: string)
    requires ':' !in a
    ensures SplitAttribute(a + [':'] + b) == Some(Attribute(Trim(a), Trim(b)))
  {
    IndexOfFirst(a, ':', b);
    SliceAround(a, ':', b);
  }

  lemma SliceAround(a: string, c: char, b: string)
    ensures (a + [c] + b)[..|a|] == a && (a + [c] + b)[|a| + 1..] == b
  {
    assert (a + [c] + b)[..|a|] == a;
    assert (a + [c] + b)[|a| + 1..] == b;
  }

  /** The attributes of a sequence of lines, in order. */
  function Attributes(lines: seq<string>): seq<Attribute> {
    if lines == [] then []
    else
      var init := Attributes(lines[..|lines| - 1]);
      match ParseLine(lines[|lines| - 1])
      case None => init
      case Some(a) => init + [a]
  }

  /** The fields of the reply the parser fills, and `Other` for every key it ignores. */
  datatype Field = Country | Netname | Descr | Org | AdminC | TechC | MntBy | LastModified | Other

  /** The field a key fills. */
  function FieldOf(key: string): Field
  {
    match key
    case "country" => Country
    case "netname" => Netname
    case "descr" => Descr
    case "org" => Org
    case "organisation" => Org
    case "admin-c" => AdminC
    case "tech-c" => TechC
    case "mnt-by" => MntBy
    case "last-modified" => LastModified
    case _ => Other
  }

  /** Each field is filled by its own key, and `org` and `organisation` both fill `Org`. */
  lemma FieldOfKeys(key: string)
    ensures FieldOf(key) == Country <==> key == "country"
    ensures FieldOf(key) == Netname <==> key == "netname"
    ensures FieldOf(key) == Descr <==> key == "descr"
    ensures FieldOf(key) == Org <==> key == "org" || key == "organisation"
    ensures FieldOf(key) == AdminC <==> key == "admin-c"
    ensures FieldOf(key) == TechC <==> key == "tech-c"
    ensures FieldOf(key) == MntBy <==> key == "mnt-by"
    ensures FieldOf(key) == LastModified <==> key == "last-modified"
  {
  }

  /** The value of the last attribute that fills field `f`. */
  function LastValue(attrs: seq<Attribute>, f: Field): Option<string> {
    if attrs == [] then None
    else if FieldOf(attrs[|attrs| - 1].key) == f then Some(attrs[|attrs| - 1].value)
    else LastValue(attrs[..|attrs| - 1], f)
  }

  /** The value of the first attribute that fills field `f`. */
  function FirstValue(attrs: seq<Attribute>, f: Field): Option<string> {
    if attrs == [] then None
    else if FieldOf(attrs[0].key) == f then Some(attrs[0].value)
    else FirstValue(attrs[1..], f)
  }

  /** A later attribute overrides everything before it. */
  lemma {:induction false} LastValueAppend(a: seq<Attribute>, b: seq<Attribute>, f: Field)
    ensures LastValue(a + b, f) == LastValue(b, f).OrElse(LastValue(a, f))
    decreases |b|
  {
    if b == [] {
      assert a + b == a;
    } else {
      var n := |a + b|;
      assert (a + b)[n - 1] == b[|b| - 1];
      assert (a + b)[..n - 1] == a + b[..|b| - 1];
      LastValueAppend(a, b[..|b| - 1], f);
    }
  }

  /** An earlier attribute hides everything after it. */
  lemma {:induction false} FirstValueAppend(a: seq<Attribute>, b: seq<Attribute>, f: Field)
    ensures FirstValue(a + b, f) == FirstValue(a, f).OrElse(FirstValue(b, f))
    decreases |a|
  {
    if a == [] {
      assert a + b == b;
    } else {
      assert (a + b)[0] == a[0];
      assert (a + b)[1..] == a[1..] + b;
      FirstValueAppend(a[1..], b, f);
    }
  }

  /** An attribute whose key the parser does not know changes no field. */
  lemma UnknownKeyIgnored(a: seq<Attribute>, x: Attribute, f: Field)
    requires FieldOf(x.key) == Other && f != Other
    ensures LastValue(a + [x], f) == LastValue(a, f)
    ensures FirstValue(a + [x], f) == FirstValue(a, f)
  {
    LastValueAppend(a, [x], f);
    FirstValueAppend(a, [x], f);
  }

  /** What one more attribute does to the first and the last value of a field. */
  lemma ValueStep(before: seq<Attribute>, a: Attribute, f: Field)
    ensures LastValue(before + [a], f) == if FieldOf(a.key) == f then Some(a.value) else LastValue(before, f)
    ensures FirstValue(before + [a], f) ==
      FirstValue(before, f).OrElse(if FieldOf(a.key) == f then Some(a.value) else None)
  {
    assert (before + [a])[..|before|] == before;
    FirstValueAppend(before, [a], f);
  }

  /** What one attribute does to the record: a last-wins field takes its value, `descr` only when empty. */
  function Record(info: WhoisInfo, a: Attribute): WhoisInfo {
    match FieldOf(a.key)
    case Country => info.(country := Some(a.value))
    case Netname => info.(netname := Some(a.value))
    case Descr => if info.descr.None? then info.(descr := Some(a.value)) else info
    case Org => info.(org := Some(a.value))
    case AdminC => info.(adminC := Some(a.value))
    case TechC => info.(techC := Some(a.value))
    case MntBy => info.(mntBy := Some(a.value))
    case LastModified => info.(lastModified := Some(a.value))
    case Other => info
  }

  /** The record of a reply's attributes, in order, starting from one with every field empty. */
  function Collect(attrs: seq<Attribute>, response: string): WhoisInfo {
    if attrs == [] then WhoisInfo(None, None, None, None, None, None, None, None, response)
    else Record(Collect(attrs[..|attrs| - 1], response), attrs[|attrs| - 1])
  }

  /** Every field of the record holds its key's last value, `descr` its first, and the reply is kept. */
  lemma {:induction false} CollectValues(attrs: seq<Attribute>, response: string)
    ensures var info := Collect(attrs, response);
      && info.country == LastValue(attrs, Country)
      && info.netname == LastValue(attrs, Netname)
      && info.descr == FirstValue(attrs, Descr)
      && info.org == LastValue(attrs, Org)
      && info.adminC == LastValue(attrs, AdminC)
      && info.techC == LastValue(attrs, TechC)
      && info.mntBy == LastValue(attrs, MntBy)
      && info.lastModified == LastValue(attrs, LastModified)
      && info.rawResponse == response
    decreases |attrs|
  {
    if attrs != [] {
      var before, a := attrs[..|attrs| - 1], attrs[|attrs| - 1];
      assert attrs == before + [a];
      CollectValues(before, response);
      ValueStep(before, a, Country);
      ValueStep(before, a, Netname);
      ValueStep(before, a, Descr);
      ValueStep(before, a, Org);
      ValueStep(before, a, AdminC);
      ValueStep(before, a, TechC);
      ValueStep(before, a, MntBy);
      ValueStep(before, a, LastModified);
    }
  }

  /** The record of a sequence of lines, read one line at a time. */
  function ParseLines(lines: seq<string>, response: string): WhoisInfo {
    if lines == [] then WhoisInfo(None, None, None, None, None, None, None, None, response)
    else
      var before := ParseLines(lines[..|lines| - 1], response);
      match ParseLine(lines[|lines| - 1])
      case None => before
      case Some(a) => Record(before, a)
  }

  /** Reading the lines one at a time records their attributes in order. */
  lemma {:induction false} ParseLinesCollects(lines: seq<string>, response: string)
    ensures ParseLines(lines, response) == Collect(Attributes(lines), response)
    decreases |lines|
  {
    if lines != [] {
      var init := lines[..|lines| - 1];
      ParseLinesCollects(init, response);
      match ParseLine(lines[|lines| - 1]) {
        case None =>
        case Some(a) =>
          var attrs := Attributes(init);
          assert (attrs + [a])[..|attrs|] == attrs;
      }
    }
  }

  /** One more line is read on top of the record of the lines before it. */
  lemma ParseLinesStep(lines: seq<string>, i: nat, response: string)
    requires i < |lines|
    ensures ParseLines(lines[..i + 1], response) ==
      match ParseLine(lines[i])
      case None => ParseLines(lines[..i], response)
      case Some(a) => Record(ParseLines(lines[..i], response), a)
  {
    assert lines[..i + 1][..i] == lines[..i];
  }

  /**
   * Parses a reply: every field holds the value of its key's last line, except `descr`,
   * which holds its first; `org` and `organisation` fill the same field.
   */
  method ParseResponse(response: string) returns (info: WhoisInfo)
    ensures info == Collect(Attributes(Lines(response)), response)
    ensures var attrs := Attributes(Lines(response));
      && info.country == LastValue(attrs, Country)
      && info.netname == LastValue(attrs, Netname)
      && info.descr == FirstValue(attrs, Descr)
      && info.org == LastValue(attrs, Org)
      && info.adminC == LastValue(attrs, AdminC)
      && info.techC == LastValue(attrs, TechC)
      && info.mntBy == LastValue(attrs, MntBy)
      && info.lastModified == LastValue(attrs, LastModified)
    ensures info.rawResponse == response
  {
    var lines := Lines(response);
    var country: Option<string> := None;
    var netname: Option<string> := None;
    var descr: Option<string> := None;
    var org: Option<string> := None;
    var adminC: Option<string> := None;
    var techC: Option<string> := None;
    var mntBy: Option<string> := None;
    var lastModified: Option<string> := None;
    var i := 0;
    while i < |lines|
      invariant 0 <= i <= |lines|
      invariant WhoisInfo(country, netname, descr, org, adminC, techC, mntBy, lastModified, response)
        == ParseLines(lines[..i], response)
    {
      ParseLinesStep(lines, i, response);
      match ParseLine(lines[i]) {
        case None =>
        case Some(a) =>
          match FieldOf(a.key) {
            case Country => country := Some(a.value);
            case Netname => netname := Some(a.value);
            case Descr =>
              if descr.None? {
                descr := Some(a.value);
              }
            case Org => org := Some(a.value);
            case AdminC => adminC := Some(a.value);
            case TechC => techC := Some(a.value);
            case MntBy => mntBy := Some(a.value);
            case LastModified => lastModified := Some(a.value);
            case Other =>
          }
      }
      i := i + 1;
    }
    assert lines[..i] == lines;
    ParseLinesCollects(lines, response);
    info := WhoisInfo(country, netname, descr, org, adminC, techC, mntBy, lastModified, response);
    CollectValues(Attributes(lines), response);
  }
}
