/** The two value types that shape outgoing requests: a localization
    (language plus an optional country, the empty string meaning "no
    country") and a content country. Only what the facade reads of them is
    modelled: the country code and the `DEFAULT` constants. */
module Locale {

  datatype Localization = Localization(languageCode: string, countryCode: string)

  datatype ContentCountry = ContentCountry(countryCode: string)

  /** Stand-ins for `Localization.DEFAULT` and `ContentCountry.DEFAULT`;
      no property of the model depends on their particular codes. */
  const DefaultLocalization: Localization := Localization("en", "GB")
  const DefaultContentCountry: ContentCountry := ContentCountry("GB")

  /** The content country a localization implies: its own country when it
      names one, the default country otherwise. */
  function CountryOf(l: Localization): (c: ContentCountry)
    ensures l.countryCode != "" ==> c.countryCode == l.countryCode
    ensures l.countryCode == "" ==> c == DefaultContentCountry
    ensures c.countryCode != ""
  {
    if l.countryCode == "" then DefaultContentCountry else ContentCountry(l.countryCode)
  }
}
