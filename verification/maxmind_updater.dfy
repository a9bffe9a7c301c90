/**
 * The MaxMind GeoLite2 updater: choosing the download URL of a database, finding the
 * database file among the files of the unpacked archive, and the order of an update.
 * Downloading, gunzip, untar and copying are given outcomes.
 */
module MaxmindUpdater {
  import opened Wrappers
  import opened Text
  import opened Http
  import opened MaxmindReader

  datatype DownloadUrls = DownloadUrls(asn: string, city: string, country: string)

  /** The configuration the updater reads: the license key, the URL templates and the target directory. */
  datatype MaxmindConfig = MaxmindConfig(licenseKey: string, downloadUrls: DownloadUrls, databaseDir: string)

  /** The text each URL template holds where the license key goes. */
  const LICENSE_KEY_PLACEHOLDER: string := "{license_key}"

  /** The name the updater gives each kind of database. */
  function TypeName(kind: DbKind): string {
    match kind
    case Asn => "asn"
    case City => "city"
    case Country => "country"
  }

  /**
   * The download URL for a database type: its configured template with every placeholder
   * replaced by the license key. Any other type name is an error.
   */
  function GetDownloadUrl(config: MaxmindConfig, dbType: string): (r: Result<string, string>)
    ensures r.Ok? <==> dbType == "asn" || dbType == "city" || dbType == "country"
  {
    var template :=
      if dbType == "asn" then Some(config.downloadUrls.asn)
      else if dbType == "city" then Some(config.downloadUrls.city)
      else if dbType == "country" then Some(config.downloadUrls.country)
      else None;
    match template
    case None => Err("invalid database type: " + dbType)
    case Some(url) => Ok(ReplaceAll(url, LICENSE_KEY_PLACEHOLDER, config.licenseKey))
  }

  /** The configured template of a kind. */
  function Template(config: MaxmindConfig, kind: DbKind): string {
    match kind
    case Asn => config.downloadUrls.asn
    case City => config.downloadUrls.city
    case Country => config.downloadUrls.country
  }

  /**
   * Every kind has a URL, made from its own template; a template without the placeholder is
   * used as it is, and the first placeholder of one is replaced by the key.
   */
  lemma DownloadUrlOfKind(config: MaxmindConfig, kind: DbKind)
    ensures GetDownloadUrl(config, TypeName(kind)) ==
      Ok(ReplaceAll(Template(config, kind), LICENSE_KEY_PLACEHOLDER, config.licenseKey))
    ensures (forall i :: 0 <= i < |Template(config, kind)| ==>
               !OccursAt(Template(config, kind), LICENSE_KEY_PLACEHOLDER, i)) ==>
      GetDownloadUrl(config, TypeName(kind)) == Ok(Template(config, kind))
  {
    var t := Template(config, kind);
    if forall i :: 0 <= i < |t| ==> !OccursAt(t, LICENSE_KEY_PLACEHOLDER, i) {
      ReplaceAllAbsent(t, LICENSE_KEY_PLACEHOLDER, config.licenseKey);
    }
  }

  /** A template `a` + placeholder + `b` with no placeholder starting in `a` gets the key there. */
  lemma DownloadUrlSubstitutesKey(config: MaxmindConfig, kind: DbKind, a: string, b: string)
    requires Template(config, kind) == a + LICENSE_KEY_PLACEHOLDER + b
    requires forall i :: 0 <= i < |a| ==> !OccursAt(Template(config, kind), LICENSE_KEY_PLACEHOLDER, i)
    ensures GetDownloadUrl(config, TypeName(kind)) ==
      Ok(a + config.licenseKey + ReplaceAll(b, LICENSE_KEY_PLACEHOLDER, config.licenseKey))
  {
    DownloadUrlOfKind(config, kind);
    ReplaceAllFirst(a, b, LICENSE_KEY_PLACEHOLDER, config.licenseKey);
  }

  /**
   * The file name the updater derives from a type name: `GeoLite2-`, the name with its
   * first letter in upper case, `.mmdb`. The type name is never empty: the updater only
   * passes its three fixed names.
   */
  function DerivedFileName(dbType: string): (name: string)
    requires dbType != []
    ensures |name| == |dbType| + 14
  {
    "GeoLite2-" + [ToUpperAscii(dbType[0])] + dbType[1..] + ".mmdb"
  }

  /**
   * The derived name of the ASN database is `GeoLite2-Asn.mmdb`, not the `GeoLite2-ASN.mmdb`
   * the reader opens and the archive holds.
   */
  lemma DerivedAsnFileNameMismatch()
    ensures DerivedFileName(TypeName(Asn)) == "GeoLite2-Asn.mmdb"
    ensures DerivedFileName(TypeName(Asn)) != DatabaseFile(Asn)
  {
    var asn := TypeName(Asn);
    assert asn[0] == 'a' && asn[1..] == "sn";
    assert ToUpperAscii('a') == 'A';
    assert DatabaseFile(Asn)[10] == 'S' && DerivedFileName(TypeName(Asn))[10] == 's';
  }

  /** For the city and the country database the derived name is the one the reader opens. */
  lemma DerivedFileNamesAgree()
    ensures DerivedFileName(TypeName(City)) == DatabaseFile(City)
    ensures DerivedFileName(TypeName(Country)) == DatabaseFile(Country)
  {
    var city, country := TypeName(City), TypeName(Country);
    assert city[0] == 'c' && city[1..] == "ity";
    assert country[0] == 'c' && country[1..] == "ountry";
    assert ToUpperAscii('c') == 'C';
  }

  /** The file name the updater looks for and writes: the one the reader opens. */
  function TargetFileName(kind: DbKind): (name: string)
    ensures name == DatabaseFile(kind)
  {
    var edition := match kind
      case Asn => "ASN"
      case City => "City"
      case Country => "Country";
    "GeoLite2-" + edition + ".mmdb"
  }

  /** The name the updater searches the archive for and writes: the one it derives from the type name. */
  function SearchName(kind: DbKind): string {
    DerivedFileName(TypeName(kind))
  }

  /** The download URL of a kind: its template with every placeholder replaced by the license key. */
  function KindUrl(config: MaxmindConfig, kind: DbKind): string {
    ReplaceAll(Template(config, kind), LICENSE_KEY_PLACEHOLDER, config.licenseKey)
  }

  /**
   * The update step for one kind succeeds when it searches for `target`: the download
   * succeeds, the unpacked archive holds an entry ending with `target`, and the copy succeeds.
   */
  predicate StepSucceeds(config: MaxmindConfig, kind: DbKind, target: string,
                         fetch: string -> Reply<Walk>, copyFault: DbKind -> Option<string>) {
    var body := Body(fetch(KindUrl(config, kind)));
    && body.Ok?
    && FirstMatch(body.value, target).Ok?
    && FirstMatch(body.value, target).value.Some?
    && copyFault(kind).None?
  }

  /** A walk over the unpacked archive: the file name of each entry, or the error the walk met. */
  type Walk = seq<Result<string, string>>

  /** The first entry of a walk whose name ends with `target`, or the walk's first error before it. */
  function FirstMatch(walk: Walk, target: string): (r: Result<Option<nat>, string>)
    ensures r.Ok? && r.value.Some? ==> r.value.value < |walk|
  {
    if walk == [] then Ok(None)
    else
      match walk[0]
      case Err(e) => Err(e)
      case Ok(name) =>
        if EndsWith(name, target) then Ok(Some(0))
        else
          match FirstMatch(walk[1..], target)
          case Err(e) => Err(e)
          case Ok(None) => Ok(None)
          case Ok(Some(i)) => Ok(Some(i + 1))
  }

  /** An entry the search passes over: read without error and not a match. */
  predicate Passed(entry: Result<string, string>, target: string) {
    entry.Ok? && !EndsWith(entry.value, target)
  }

  /** `FirstMatch` stops at the earliest entry that matches or fails, and finds nothing only when there is none. */
  lemma {:induction false} FirstMatchIsFirst(walk: Walk, target: string)
    ensures FirstMatch(walk, target) == Ok(None) <==> forall j :: 0 <= j < |walk| ==> Passed(walk[j], target)
    ensures FirstMatch(walk, target).Ok? && FirstMatch(walk, target).value.Some? ==>
      var i := FirstMatch(walk, target).value.value;
      && walk[i].Ok? && EndsWith(walk[i].value, target)
      && forall j :: 0 <= j < i ==> Passed(walk[j], target)
    ensures FirstMatch(walk, target).Err? ==>
      exists i :: 0 <= i < |walk| && walk[i] == Err(FirstMatch(walk, target).error)
        && forall j :: 0 <= j < i ==> Passed(walk[j], target)
  {
    if walk != [] && Passed(walk[0], target) {
      var rest := walk[1..];
      FirstMatchIsFirst(rest, target);
      forall j | 0 <= j < |rest| ensures rest[j] == walk[j + 1] {}
      if FirstMatch(walk, target) == Ok(None) {
        forall j | 0 <= j < |walk| ensures Passed(walk[j], target) {
          if j > 0 {
            assert walk[j] == rest[j - 1];
          }
        }
      }
      if forall j :: 0 <= j < |walk| ==> Passed(walk[j], target) {
        assert forall j :: 0 <= j < |rest| ==> Passed(rest[j], target);
      }
      if FirstMatch(rest, target).Err? {
        var i :| 0 <= i < |rest| && rest[i] == Err(FirstMatch(rest, target).error)
          && forall j :: 0 <= j < i ==> Passed(rest[j], target);
        assert walk[i + 1] == rest[i];
        forall j | 0 <= j < i + 1 ensures Passed(walk[j], target) {
          if j > 0 {
            assert walk[j] == rest[j - 1];
          }
        }
      }
      if FirstMatch(rest, target).Ok? && FirstMatch(rest, target).value.Some? {
        var i := FirstMatch(rest, target).value.value;
        forall j | 0 <= j < i + 1 ensures Passed(walk[j], target) {
          if j > 0 {
            assert walk[j] == rest[j - 1];
          }
        }
      }
    }
  }

  /** Skipping entries the search passes over shifts what it finds by their number. */
  lemma {:induction false} FirstMatchSkip(walk: Walk, target: string, i: nat)
    requires i <= |walk|
    requires forall j :: 0 <= j < i ==> Passed(walk[j], target)
    ensures FirstMatch(walk, target) ==
      match FirstMatch(walk[i..], target)
      case Err(e) => Err(e)
      case Ok(None) => Ok(None)
      case Ok(Some(k)) => Ok(Some(k + i))
    decreases i
  {
    if i > 0 {
      FirstMatchSkip(walk[1..], target, i - 1);
      assert walk[1..][i - 1..] == walk[i..];
    }
  }

  class Updater {
    const config: MaxmindConfig
    var lastUpdate: Option<nat>

    constructor(config: MaxmindConfig)
      ensures this.config == config && lastUpdate.None?
    {
      this.config := config;
      lastUpdate := None;
    }

    /**
     * Copies the first entry of the walk whose name ends with `target` into the database
     * directory. A walk error before it, no such entry, or a failed copy is an error;
     * `copyFrom` is the entry a copy was attempted from.
     */
    method ExtractDatabase(walk: Walk, target: string, copyFault: Option<string>)
      returns (r: Result<(), string>, copyFrom: Option<nat>)
      ensures match FirstMatch(walk, target)
        case Err(e) => r == Err(e) && copyFrom.None?
        case Ok(None) => r.Err? && copyFrom.None?
        case Ok(Some(i)) => copyFrom == Some(i) && (r.Ok? <==> copyFault.None?)
    {
      var found := false;
      copyFrom := None;
      var i := 0;
      while i < |walk|
        invariant 0 <= i <= |walk|
        invariant !found && copyFrom.None?
        invariant forall j :: 0 <= j < i ==> Passed(walk[j], target)
      {
        match walk[i] {
          case Err(e) =>
            FirstMatchSkip(walk, target, i);
            return Err(e), None;
          case Ok(name) =>
            if EndsWith(name, target) {
              FirstMatchSkip(walk, target, i);
              copyFrom := Some(i);
              if copyFault.Some? {
                return Err(copyFault.value), copyFrom;
              }
              found := true;
              break;
            }
        }
        i := i + 1;
      }
      if !found {
        FirstMatchSkip(walk, target, i);
        return Err("database file not found in the archive"), None;
      }
      r := Ok(());
    }

    /**
     * Downloads the archive of one kind from its URL and extracts its database file, searched
     * for by the name the updater derives. The reply's body is the walk over the unpacked
     * archive, or the error reading, gunzip or untar met.
     */
    method DownloadAndExtract(kind: DbKind, fetch: string -> Reply<Walk>, copyFault: DbKind -> Option<string>)
      returns (r: Result<(), string>)
      ensures r.Ok? <==> StepSucceeds(config, kind, SearchName(kind), fetch, copyFault)
    {
      var url := GetDownloadUrl(config, TypeName(kind));
      DownloadUrlOfKind(config, kind);
      match Body(fetch(url.value)) {
        case Err(e) =>
          r := Err(e);
        case Ok(walk) =>
          var copyFrom;
          r, copyFrom := ExtractDatabase(walk, SearchName(kind), copyFault(kind));
      }
    }

    /**
     * Updates the ASN, the city and the country database in that order, stopping at the
     * first step that fails; the time of the update is recorded only when all three
     * succeed. `attempted` lists the kinds whose step ran.
     */
    method Update(now: nat, dirFault: Option<string>, fetch: string -> Reply<Walk>,
                  copyFault: DbKind -> Option<string>)
      returns (r: Result<(), string>, attempted: seq<DbKind>)
      modifies this`lastUpdate
      ensures dirFault.Some? ==> r.Err? && attempted == []
      ensures dirFault.None? ==>
        attempted == if !StepSucceeds(config, Asn, SearchName(Asn), fetch, copyFault) then [Asn]
                     else if !StepSucceeds(config, City, SearchName(City), fetch, copyFault) then [Asn, City]
                     else [Asn, City, Country]
      ensures r.Ok? <==>
        (dirFault.None? && StepSucceeds(config, Asn, SearchName(Asn), fetch, copyFault)
         && StepSucceeds(config, City, SearchName(City), fetch, copyFault) && StepSucceeds(config, Country, SearchName(Country), fetch, copyFault))
      ensures lastUpdate == if r.Ok? then Some(now) else old(lastUpdate)
    {
      attempted := [];
      if dirFault.Some? {
        return Err(dirFault.value), attempted;
      }
      attempted := [Asn];
      r := DownloadAndExtract(Asn, fetch, copyFault);
      if r.Err? {
        return;
      }
      attempted := [Asn, City];
      r := DownloadAndExtract(City, fetch, copyFault);
      if r.Err? {
        return;
      }
      attempted := [Asn, City, Country];
      r := DownloadAndExtract(Country, fetch, copyFault);
      if r.Err? {
        return;
      }
      lastUpdate := Some(now);
    }
  }

  /**
   * The entries a walk over MaxMind's unpacked ASN archive yields: the temporary directory,
   * the dated edition directory and its files.
   */
  function AsnArchiveWalk(): Walk {
    [Ok("maxmind0"), Ok("GeoLite2-ASN_20240101"), Ok("COPYRIGHT.txt"), Ok("GeoLite2-ASN.mmdb"), Ok("LICENSE.txt")]
  }

  /** With the name the updater derives, the ASN database file is not found in MaxMind's archive. */
  lemma AsnArchiveMissedByDerivedName()
    ensures FirstMatch(AsnArchiveWalk(), DerivedFileName(TypeName(Asn))) == Ok(None)
  {
    var walk := AsnArchiveWalk();
    DerivedAsnFileNameMismatch();
    var derived := DerivedFileName(TypeName(Asn));
    assert !EndsWith("maxmind0", derived);
    assert !EndsWith("GeoLite2-ASN_20240101", derived);
    assert !EndsWith("COPYRIGHT.txt", derived);
    assert !EndsWith("GeoLite2-ASN.mmdb", derived);
    assert !EndsWith("LICENSE.txt", derived);
    FirstMatchIsFirst(walk, derived);
  }

  /** With the reader's name the file is found, as the fourth entry of the walk. */
  lemma AsnArchiveFoundByTargetName()
    ensures FirstMatch(AsnArchiveWalk(), TargetFileName(Asn)) == Ok(Some(3))
  {
    var walk := AsnArchiveWalk();
    var target := TargetFileName(Asn);
    assert !EndsWith("maxmind0", target);
    assert !EndsWith("GeoLite2-ASN_20240101", target);
    assert !EndsWith("COPYRIGHT.txt", target);
    assert EndsWith("GeoLite2-ASN.mmdb", target);
    FirstMatchSkip(walk, target, 3);
  }

  /**
   * Served MaxMind's ASN archive, the ASN step fails: the name the updater searches for
   * matches no entry.
   */
  lemma AsnStepFailsOnMaxmindArchive(config: MaxmindConfig, fetch: string -> Reply<Walk>,
                                     copyFault: DbKind -> Option<string>)
    requires Body(fetch(KindUrl(config, Asn))) == Ok(AsnArchiveWalk())
    ensures !StepSucceeds(config, Asn, SearchName(Asn), fetch, copyFault)
  {
    AsnArchiveMissedByDerivedName();
  }

  /** Searching for the reader's name instead, the same step succeeds exactly when the copy does. */
  lemma AsnStepWithTargetNameOnMaxmindArchive(config: MaxmindConfig, fetch: string -> Reply<Walk>,
                                              copyFault: DbKind -> Option<string>)
    requires Body(fetch(KindUrl(config, Asn))) == Ok(AsnArchiveWalk())
    ensures StepSucceeds(config, Asn, TargetFileName(Asn), fetch, copyFault) <==> copyFault(Asn).None?
  {
    AsnArchiveFoundByTargetName();
  }

  /**
   * An update served MaxMind's ASN archive stops at its first download step: it fails, only
   * the ASN step ran, and the time of the last update is left as it was.
   */
  method UpdateStopsAtAsnArchive(u: Updater, now: nat, fetch: string -> Reply<Walk>,
                                 copyFault: DbKind -> Option<string>)
    returns (r: Result<(), string>, attempted: seq<DbKind>)
    requires Body(fetch(KindUrl(u.config, Asn))) == Ok(AsnArchiveWalk())
    modifies u`lastUpdate
    ensures r.Err? && attempted == [Asn] && u.lastUpdate == old(u.lastUpdate)
  {
    AsnStepFailsOnMaxmindArchive(u.config, fetch, copyFault);
    r, attempted := u.Update(now, None, fetch, copyFault);
  }
}
