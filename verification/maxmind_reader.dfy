/**
 * The MaxMind GeoLite2 reader: loading the three databases, and assembling the answer for an
 * address or a network from what the ASN, city and country databases hold for it. Reading
 * the database format is not modelled: an opened database is a given function from an
 * address to a record, no record, or a lookup error.
 */
module MaxmindReader {
  import opened Wrappers
  import opened Net
  import opened WhoisClient

  /** The localized names of a place, by language tag. */
  type Names = map<string, string>

  datatype Place = Place(names: Option<Names>)
  datatype AsnRecord = AsnRecord(number: Option<nat>, organization: Option<string>)
  datatype CityRecord = CityRecord(city: Option<Place>, country: Option<Place>)
  datatype CountryRecord = CountryRecord(country: Option<Place>)

  /** An opened database: looking an address up fails, finds no record, or finds one. */
  type AsnDb = IpAddr -> Result<Option<AsnRecord>, string>
  type CityDb = IpAddr -> Result<Option<CityRecord>, string>
  type CountryDb = IpAddr -> Result<Option<CountryRecord>, string>

  /** What opening a database file gives: no such file, a file that cannot be opened, or a database. */
  datatype Opened<T> = Missing | Unreadable(message: string) | Opened(db: T)

  /** The database file kinds, in the order they are loaded. */
  datatype DbKind = Asn | City | Country

  /** The file each kind is read from, inside the database directory. */
  function DatabaseFile(kind: DbKind): string {
    match kind
    case Asn => "GeoLite2-ASN.mmdb"
    case City => "GeoLite2-City.mmdb"
    case Country => "GeoLite2-Country.mmdb"
  }

  datatype LoadError = NotFound(file: string) | OpenFailed(file: string, message: string)

  /** The error a file that did not open gives. */
  function LoadErrorOf<T>(file: Opened<T>, kind: DbKind): (e: LoadError)
    requires !file.Opened?
    ensures e.file == DatabaseFile(kind)
    ensures e.NotFound? <==> file.Missing?
  {
    if file.Missing? then NotFound(DatabaseFile(kind))
    else OpenFailed(DatabaseFile(kind), file.message)
  }

  datatype IpInfo = IpInfo(
    ip: string,
    ipRange: Option<string>,
    country: Option<string>,
    city: Option<string>,
    asn: Option<nat>,
    organization: Option<string>,
    whoisInfo: Option<WhoisInfo>)

  /**
   * A lookup fails on text that is no address or network, and when the city or country
   * database answers with no record: the reader unwraps that answer, which panics.
   */
  datatype LookupError = InvalidIp(text: string) | InvalidCidr(text: string) | Panic

  /** The name to show from a table of names: the `zh-CN` entry, else the `en` entry. */
  function PreferredName(names: Names): (name: Option<string>)
    ensures "zh-CN" in names ==> name == Some(names["zh-CN"])
    ensures "zh-CN" !in names && "en" in names ==> name == Some(names["en"])
    ensures "zh-CN" !in names && "en" !in names ==> name.None?
  {
    if "zh-CN" in names then Some(names["zh-CN"])
    else if "en" in names then Some(names["en"])
    else None
  }

  /** The name to show for a place that may be absent or have no names. */
  function LocalizedName(place: Option<Place>): (name: Option<string>)
    ensures name.Some? <==>
      (place.Some? && place.value.names.Some?
       && ("zh-CN" in place.value.names.value || "en" in place.value.names.value))
    ensures name.Some? ==> name.value in place.value.names.value.Values
  {
    match place
    case None => None
    case Some(p) =>
      match p.names
      case None => None
      case Some(names) => PreferredName(names)
  }

  /** The text of a network's range: its network address, ` - `, its broadcast address. */
  function RangeText(net: IpNet, lib: NetLib): (r: string)
    ensures var first, last := lib.showIp(Network(net)), lib.showIp(Broadcast(net));
      && |r| == |first| + 3 + |last|
      && r[..|first|] == first && r[|first|..|first| + 3] == " - " && r[|first| + 3..] == last
  {
    lib.showIp(Network(net)) + " - " + lib.showIp(Broadcast(net))
  }

  class Reader {
    var asnDb: Option<AsnDb>
    var cityDb: Option<CityDb>
    var countryDb: Option<CountryDb>

    /** A reader with no database loaded. */
    constructor()
      ensures asnDb.None? && cityDb.None? && countryDb.None?
    {
      asnDb := None;
      cityDb := None;
      countryDb := None;
    }

    method LoadAsnDatabase(file: Opened<AsnDb>) returns (r: Result<(), LoadError>)
      modifies this`asnDb
      ensures r.Ok? <==> file.Opened?
      ensures file.Opened? ==> asnDb == Some(file.db)
      ensures !file.Opened? ==> r == Err(LoadErrorOf(file, Asn)) && asnDb == old(asnDb)
    {
      match file {
        case Missing => r := Err(NotFound(DatabaseFile(Asn)));
        case Unreadable(e) => r := Err(OpenFailed(DatabaseFile(Asn), e));
        case Opened(db) =>
          asnDb := Some(db);
          r := Ok(());
      }
    }

    method LoadCityDatabase(file: Opened<CityDb>) returns (r: Result<(), LoadError>)
      modifies this`cityDb
      ensures r.Ok? <==> file.Opened?
      ensures file.Opened? ==> cityDb == Some(file.db)
      ensures !file.Opened? ==> r == Err(LoadErrorOf(file, City)) && cityDb == old(cityDb)
    {
      match file {
        case Missing => r := Err(NotFound(DatabaseFile(City)));
        case Unreadable(e) => r := Err(OpenFailed(DatabaseFile(City), e));
        case Opened(db) =>
          cityDb := Some(db);
          r := Ok(());
      }
    }

    method LoadCountryDatabase(file: Opened<CountryDb>) returns (r: Result<(), LoadError>)
      modifies this`countryDb
      ensures r.Ok? <==> file.Opened?
      ensures file.Opened? ==> countryDb == Some(file.db)
      ensures !file.Opened? ==> r == Err(LoadErrorOf(file, DbKind.Country)) && countryDb == old(countryDb)
    {
      match file {
        case Missing => r := Err(NotFound(DatabaseFile(DbKind.Country)));
        case Unreadable(e) => r := Err(OpenFailed(DatabaseFile(DbKind.Country), e));
        case Opened(db) =>
          countryDb := Some(db);
          r := Ok(());
      }
    }

    /**
     * Loads the ASN, the city and the country database in that order and stops at the first
     * file that does not open; the databases loaded before it stay loaded.
     */
    method LoadDatabases(asnFile: Opened<AsnDb>, cityFile: Opened<CityDb>, countryFile: Opened<CountryDb>)
      returns (r: Result<(), LoadError>)
      modifies this
      ensures r.Ok? <==> asnFile.Opened? && cityFile.Opened? && countryFile.Opened?
      ensures !asnFile.Opened? ==> r == Err(LoadErrorOf(asnFile, Asn))
      ensures asnFile.Opened? && !cityFile.Opened? ==> r == Err(LoadErrorOf(cityFile, City))
      ensures asnFile.Opened? && cityFile.Opened? && !countryFile.Opened? ==>
        r == Err(LoadErrorOf(countryFile, DbKind.Country))
      ensures asnDb == if asnFile.Opened? then Some(asnFile.db) else old(asnDb)
      ensures cityDb == if asnFile.Opened? && cityFile.Opened? then Some(cityFile.db) else old(cityDb)
      ensures countryDb ==
        if asnFile.Opened? && cityFile.Opened? && countryFile.Opened? then Some(countryFile.db) else old(countryDb)
    {
      r := LoadAsnDatabase(asnFile);
      if r.Err? {
        return;
      }
      r := LoadCityDatabase(cityFile);
      if r.Err? {
        return;
      }
      r := LoadCountryDatabase(countryFile);
    }

    /** The ASN record for `ip`; none when the database is not loaded or the lookup fails. */
    function AsnRecordOf(ip: IpAddr): Option<AsnRecord>
      reads this
    {
      if asnDb.Some? && asnDb.value(ip).Ok? then asnDb.value(ip).value else None
    }

    /** The city record for `ip`; none when the database is not loaded, has none, or fails. */
    function CityRecordOf(ip: IpAddr): Option<CityRecord>
      reads this
    {
      if cityDb.Some? && cityDb.value(ip).Ok? then cityDb.value(ip).value else None
    }

    function CountryRecordOf(ip: IpAddr): Option<CountryRecord>
      reads this
    {
      if countryDb.Some? && countryDb.value(ip).Ok? then countryDb.value(ip).value else None
    }

    /** The loaded city database succeeds with no record for `ip`. */
    predicate CityUnwrapPanics(ip: IpAddr)
      reads this
    {
      cityDb.Some? && cityDb.value(ip) == Ok(None)
    }

    predicate CountryUnwrapPanics(ip: IpAddr)
      reads this
    {
      countryDb.Some? && countryDb.value(ip) == Ok(None)
    }

    /** The country name the city record gives for `ip`. */
    function CityCountry(ip: IpAddr): Option<string>
      reads this
    {
      if CityRecordOf(ip).Some? then LocalizedName(CityRecordOf(ip).value.country) else None
    }

    /**
     * The answer for address `ip` written as `text`: the ASN and organization of its ASN
     * record, the city name of its city record, and the country name of its city record or,
     * failing that, of its country record. The country database is consulted only when the
     * city record gives no country.
     */
    function Geo(ip: IpAddr, text: string): (r: Result<IpInfo, LookupError>)
      reads this
    {
      var asn := AsnRecordOf(ip);
      var city := if CityRecordOf(ip).Some? then LocalizedName(CityRecordOf(ip).value.city) else None;
      var country := CityCountry(ip).OrElse(
        if CountryRecordOf(ip).Some? then LocalizedName(CountryRecordOf(ip).value.country) else None);
      if CityUnwrapPanics(ip) || (CityCountry(ip).None? && CountryUnwrapPanics(ip)) then Err(Panic)
      else
        Ok(IpInfo(text, None, country, city,
                  if asn.Some? then asn.value.number else None,
                  if asn.Some? then asn.value.organization else None,
                  None))
    }

    /** The answer for text naming one address. */
    function IpAnswer(text: string, lib: NetLib): Result<IpInfo, LookupError>
      reads this
    {
      match lib.parseIp(text)
      case None => Err(InvalidIp(text))
      case Some(ip) => Geo(ip, text)
    }

    /**
     * The answer for text naming a network: the answer for its address as written, labelled
     * with the text itself and the network's range.
     */
    function CidrAnswer(text: string, lib: NetLib): Result<IpInfo, LookupError>
      reads this
    {
      match lib.parseNet(text)
      case None => Err(InvalidCidr(text))
      case Some(net) =>
        match IpAnswer(lib.showIp(net.addr), lib)
        case Err(e) => Err(e)
        case Ok(info) => Ok(info.(ip := text, ipRange := Some(RangeText(net, lib))))
    }

    /** Looks up a network when the text holds a `/`, a single address otherwise. */
    method Lookup(text: string, lib: NetLib) returns (r: Result<IpInfo, LookupError>)
      ensures '/' in text ==> r == CidrAnswer(text, lib)
      ensures '/' !in text ==> r == IpAnswer(text, lib)
    {
      if '/' in text {
        r := LookupCidr(text, lib);
      } else {
        r := LookupIp(text, lib);
      }
    }

    /** Fills in the answer for one address database by database. */
    method LookupIp(text: string, lib: NetLib) returns (r: Result<IpInfo, LookupError>)
      ensures r == IpAnswer(text, lib)
    {
      var parsed := lib.parseIp(text);
      if parsed.None? {
        return Err(InvalidIp(text));
      }
      var ip := parsed.value;
      var info := IpInfo(text, None, None, None, None, None, None);
      if asnDb.Some? {
        match asnDb.value(ip) {
          case Ok(data) =>
            if data.Some? {
              info := info.(asn := data.value.number, organization := data.value.organization);
            }
          case Err(_) =>
        }
      }
      assert info == IpInfo(text, None, None, None,
                            if AsnRecordOf(ip).Some? then AsnRecordOf(ip).value.number else None,
                            if AsnRecordOf(ip).Some? then AsnRecordOf(ip).value.organization else None,
                            None);
      if cityDb.Some? {
        match cityDb.value(ip) {
          case Ok(data) =>
            if data.None? {
              return Err(Panic);
            }
            var rec := data.value;
            if rec.city.Some? && rec.city.value.names.Some? {
              info := info.(city := PreferredName(rec.city.value.names.value));
            }
            if info.country.None? {
              if rec.country.Some? && rec.country.value.names.Some? {
                info := info.(country := PreferredName(rec.country.value.names.value));
              }
            }
          case Err(_) =>
        }
      }
      assert !CityUnwrapPanics(ip) && info.country == CityCountry(ip);
      assert info.city == if CityRecordOf(ip).Some? then LocalizedName(CityRecordOf(ip).value.city) else None;
      if info.country.None? {
        if countryDb.Some? {
          match countryDb.value(ip) {
            case Ok(data) =>
              if data.None? {
                return Err(Panic);
              }
              var rec := data.value;
              if rec.country.Some? && rec.country.value.names.Some? {
                info := info.(country := PreferredName(rec.country.value.names.value));
              }
            case Err(_) =>
          }
        }
      }
      r := Ok(info);
    }

    /** Looks up a network by its address as written and labels the answer with the range. */
    method LookupCidr(text: string, lib: NetLib) returns (r: Result<IpInfo, LookupError>)
      ensures r == CidrAnswer(text, lib)
    {
      var parsed := lib.parseNet(text);
      if parsed.None? {
        return Err(InvalidCidr(text));
      }
      var net := parsed.value;
      var addrText := lib.showIp(net.addr);
      r := LookupIp(addrText, lib);
      if r.Ok? {
        r := Ok(r.value.(ip := text, ipRange := Some(RangeText(net, lib))));
      }
    }
  }

  /**
   * When the city record names a country, the country database plays no part: two readers
   * that differ only in it give the same answer.
   */
  lemma CountryDbUnusedWhenCityNamesCountry(r1: Reader, r2: Reader, ip: IpAddr, text: string)
    requires r1.asnDb == r2.asnDb && r1.cityDb == r2.cityDb
    requires r1.CityCountry(ip).Some?
    ensures r1.Geo(ip, text) == r2.Geo(ip, text)
  {
  }

  /**
   * The ASN database never makes a lookup fail: readers that differ only in it fail alike
   * and agree on everything but the ASN and the organization.
   */
  lemma AsnDbNeverFails(r1: Reader, r2: Reader, ip: IpAddr, text: string)
    requires r1.cityDb == r2.cityDb && r1.countryDb == r2.countryDb
    ensures r1.Geo(ip, text).Ok? <==> r2.Geo(ip, text).Ok?
    ensures r1.Geo(ip, text).Ok? ==>
      r1.Geo(ip, text).value.(asn := None, organization := None)
        == r2.Geo(ip, text).value.(asn := None, organization := None)
  {
  }

  /**
   * With a printer whose output parses back, a network is looked up at its address as
   * written (not at its network address), under the network's own text and range.
   */
  lemma CidrUsesWrittenAddress(r: Reader, text: string, lib: NetLib, net: IpNet)
    requires RoundTrips(lib)
    requires lib.parseNet(text) == Some(net)
    ensures r.CidrAnswer(text, lib) ==
      match r.Geo(net.addr, lib.showIp(net.addr))
      case Err(e) => Err(e)
      case Ok(info) => Ok(info.(ip := text, ipRange := Some(RangeText(net, lib))))
    ensures r.CidrAnswer(text, lib).Err? ==> r.CidrAnswer(text, lib) == Err(Panic)
  {
    assert lib.parseIp(lib.showIp(net.addr)) == Some(net.addr);
  }
}
