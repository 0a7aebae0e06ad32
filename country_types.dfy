/** The record shapes of the country catalogue (src/types/country.ts). */
module CountryTypes {

  datatype Option<T> = None | Some(value: T)

  datatype CountryName = CountryName(common: string, official: string)

  datatype Flags = Flags(png: string, svg: string, alt: Option<string>)

  /** One country as the REST Countries service delivers it; `cca3` is its stable identifier. */
  datatype Country = Country(
    name: CountryName,
    capital: Option<seq<string>>,
    population: nat,
    flags: Flags,
    cca3: string)

  /** The four orders the sort control offers. */
  datatype SortOption = NameAsc | NameDesc | PopulationAsc | PopulationDesc
}
