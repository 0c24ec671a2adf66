/**
 * IDiscoveryProviderCallback: the calls a provider makes on the controller,
 * as values.  A provider is identified by its position in the loader.
 */
module Callbacks {
  import opened Wrappers
  import opened JavaText

  type ProviderId = nat

  datatype Call<T> =
    | RequestDiscovery(queryUpdate: Option<String>)
    | DiscoveryStarted(query: String, token: int)
    | DiscoveryCompleted(query: String, token: int, results: Option<seq<T>>, error: Option<JavaException>)
    | ExactMatch(query: String, token: int)
    | ResultClick(query: String, token: int, item: T)

  /** A call made by one provider. */
  datatype Event<T> = Event(provider: ProviderId, call: Call<T>)
}
