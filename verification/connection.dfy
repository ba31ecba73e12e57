/** The weather record and the outcome of one request to the weather service.
    The HTTP request and the JSON field extraction are not part of this model:
    a request either yields a record or fails, and the application only
    stores and replaces the record it gets. */
module Connection {

  /** A parsed weather record, reduced to three of its text fields: the city
      name, the country and the weather description. The short description,
      the icon id, the floating-point and integer readings, the timestamps
      and the hourly series are left out. */
  datatype CityInfo = CityInfo(name: string, country: string, description: string)

  /** What one call to the weather service returns for a city name. */
  datatype FetchResult = Fetched(info: CityInfo) | FetchFailed(reason: string)
}
