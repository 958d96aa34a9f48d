/** The back end's `rateMapper`: it copies eight fields between the `Rate`
    entity (about 150 columns of one tax-rate row) and the `RateDto` the API
    exchanges. The entity keeps the eight mapped columns by name; the other
    columns are grouped in `RateRest`, which a freshly constructed entity
    fills with its declared defaults. */
module RateMapper {
  import opened Optional

  /** A C# `decimal`; the mapper only copies it. */
  type Decimal = real

  /** A C# `DateTime`, as its tick count. */
  datatype DateTime = DateTime(ticks: int)

  /** The number of `string` columns of `Rate` that the mapper does not touch
      (ZIP, the five STJ names, SD_CODE, DEFAULT_CITY, HISTORY_FLAG, the eight
      tax authorities, UNINCORPORATED_AREA, MAILING_ADDRESS, VERTICAL,
      REPORTING_CITY and the five STJ city/county flags). */
  const OtherStringColumns: nat := 26

  /** The number of `decimal?` columns of `Rate` that the mapper does not
      touch: all rate, minimum, maximum, split and maximum-tax columns except
      STATE_SALES_RATE1, COUNTY_SALES_RATE1 and CITY_SALES_RATE1. */
  const OtherDecimalColumns: nat := 117

  /** The columns of `Rate` outside the mapping, in declaration order. */
  datatype RateRest = RateRest(
    strings: seq<string>,
    decimals: seq<Option<Decimal>>,
    createdAt: DateTime,
    updatedAt: Option<DateTime>)

  /** The `Rate` entity. */
  datatype Rate = Rate(
    geocode: string,
    stateName: string,
    countyName: string,
    cityName: string,
    stateSalesRate1: Option<Decimal>,
    countySalesRate1: Option<Decimal>,
    citySalesRate1: Option<Decimal>,
    effectiveDate: Option<DateTime>,
    rest: RateRest)

  /** The `RateDto` the API sends and receives. */
  datatype RateDto = RateDto(
    geocode: string,
    state: string,
    county: string,
    city: string,
    stateTaxRate: Option<Decimal>,
    countyTaxRate: Option<Decimal>,
    cityTaxRate: Option<Decimal>,
    effectiveDate: Option<DateTime>)

  /** The unmapped columns of a `new Rate { ... }` created at time `now`:
      strings empty, decimals and UpdatedAt null, CreatedAt the clock. */
  function DefaultRest(now: DateTime): RateRest {
    RateRest(seq(OtherStringColumns, _ => ""), seq(OtherDecimalColumns, _ => None), now, None)
  }

  /** `toRateDto`. */
  function ToRateDto(rate: Rate): RateDto {
    RateDto(
      rate.geocode, rate.stateName, rate.countyName, rate.cityName,
      rate.stateSalesRate1, rate.countySalesRate1, rate.citySalesRate1,
      rate.effectiveDate)
  }

  /** `toRateEntity`; the entity's `CreatedAt` initialiser reads the clock,
      which is the parameter `now` here. Mapping the entity back gives the
      same DTO, and every column the DTO does not carry holds its default. */
  function ToRateEntity(dto: RateDto, now: DateTime): (r: Rate)
    ensures ToRateDto(r) == dto
    ensures r.rest == DefaultRest(now)
  {
    Rate(
      dto.geocode, dto.state, dto.county, dto.city,
      dto.stateTaxRate, dto.countyTaxRate, dto.cityTaxRate,
      dto.effectiveDate, DefaultRest(now))
  }

  /** The two entities agree on the eight mapped columns. */
  predicate SameMappedColumns(a: Rate, b: Rate) {
    a.geocode == b.geocode && a.stateName == b.stateName &&
    a.countyName == b.countyName && a.cityName == b.cityName &&
    a.stateSalesRate1 == b.stateSalesRate1 && a.countySalesRate1 == b.countySalesRate1 &&
    a.citySalesRate1 == b.citySalesRate1 && a.effectiveDate == b.effectiveDate
  }

  /** The DTO names the location by the entity's GEOCODE, STATE_NAME,
      COUNTY_NAME and CITY_NAME, and its rates and date by the first state,
      county and city sales rates and EFFECTIVE_DATE. */
  lemma DtoCopiesMappedColumns(rate: Rate)
    ensures var d := ToRateDto(rate);
      d.geocode == rate.geocode && d.state == rate.stateName &&
      d.county == rate.countyName && d.city == rate.cityName &&
      d.stateTaxRate == rate.stateSalesRate1 && d.countyTaxRate == rate.countySalesRate1 &&
      d.cityTaxRate == rate.citySalesRate1 && d.effectiveDate == rate.effectiveDate
  {
  }

  /** Two entities give the same DTO exactly when they agree on the mapped
      columns: every other column is ignored. */
  lemma DtoDependsOnlyOnMappedColumns(a: Rate, b: Rate)
    ensures ToRateDto(a) == ToRateDto(b) <==> SameMappedColumns(a, b)
  {
  }

  /** The entity built from a DTO carries the DTO's eight fields in the same
      eight columns, and every other column at its declared default. */
  lemma EntityFromDto(dto: RateDto, now: DateTime)
    ensures var r := ToRateEntity(dto, now);
      r.geocode == dto.geocode && r.stateName == dto.state &&
      r.countyName == dto.county && r.cityName == dto.city &&
      r.stateSalesRate1 == dto.stateTaxRate && r.countySalesRate1 == dto.countyTaxRate &&
      r.citySalesRate1 == dto.cityTaxRate && r.effectiveDate == dto.effectiveDate &&
      |r.rest.strings| == OtherStringColumns && |r.rest.decimals| == OtherDecimalColumns &&
      (forall i :: 0 <= i < |r.rest.strings| ==> r.rest.strings[i] == "") &&
      (forall i :: 0 <= i < |r.rest.decimals| ==> r.rest.decimals[i] == None) &&
      r.rest.createdAt == now && r.rest.updatedAt == None
  {
  }

  /** Entity to DTO and back keeps the mapped columns, and gives back the
      same entity exactly when every other column already held its default:
      the reverse trip loses information. */
  lemma EntityRoundTrip(rate: Rate, now: DateTime)
    ensures SameMappedColumns(ToRateEntity(ToRateDto(rate), now), rate)
    ensures ToRateEntity(ToRateDto(rate), now) == rate <==> rate.rest == DefaultRest(now)
  {
  }

  /** A concrete loss: the ZIP column of an entity does not survive the trip
      through the DTO. */
  lemma EntityRoundTripLosesZip(now: DateTime)
    ensures var rest := DefaultRest(now).(strings := ["78701"] + seq(OtherStringColumns - 1, _ => ""));
      var rate := Rate("4800000", "TX", "TRAVIS", "AUSTIN", Some(0.0625), None, None, None, rest);
      ToRateEntity(ToRateDto(rate), now) != rate
  {
    var rest := DefaultRest(now).(strings := ["78701"] + seq(OtherStringColumns - 1, _ => ""));
    assert rest.strings[0] != DefaultRest(now).strings[0];
  }

}
