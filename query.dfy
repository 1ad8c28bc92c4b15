/**
 * The inbound query string as the handler and the middleware use it: every
 * parameter is forwarded to the content-delivery request (src/index.ts:31-32),
 * and a `reload` parameter turns off caching (src/index.ts:13-17).
 */
module Query {

  /** One query parameter, as `URLSearchParams` yields it: name and decoded value. */
  datatype Param = Param(name: string, value: string)

  /** `has` on the search parameters: some parameter carries the name, whatever its value. */
  function Has(query: seq<Param>, name: string): (b: bool)
    ensures b <==> exists i :: 0 <= i < |query| && query[i].name == name
  {
    if query == [] then false
    else query[0].name == name || Has(query[1..], name)
  }

  /**
   * The forwarding loop of src/index.ts:32: each inbound parameter is
   * appended to the outgoing ones, in order, with its value unchanged;
   * nothing is dropped, reordered or added.
   */
  method ForwardQuery(outgoing: seq<Param>, inbound: seq<Param>) returns (forwarded: seq<Param>)
    ensures forwarded == outgoing + inbound
  {
    forwarded := outgoing;
    var i := 0;
    while i < |inbound|
      invariant 0 <= i <= |inbound|
      invariant forwarded == outgoing + inbound[..i]
    {
      forwarded := forwarded + [Param(inbound[i].name, inbound[i].value)];
      i := i + 1;
    }
    assert inbound[..i] == inbound;
  }

  /** The name of the parameter that turns off caching. */
  const ReloadParam: string := "reload"

  const NoStore: string := "no-store"
  const PublicOneHour: string := "public, max-age=3600"

  /** The Cache-Control header the middleware sets on every response. */
  function CacheControl(query: seq<Param>): (value: string)
    ensures value == NoStore || value == PublicOneHour
    ensures value == NoStore <==> exists i :: 0 <= i < |query| && query[i].name == ReloadParam
  {
    if Has(query, ReloadParam) then NoStore else PublicOneHour
  }

  /**
   * Only the presence of `reload` matters: its value, the other parameters
   * and their order do not change the header.
   */
  lemma {:induction false} CacheControlIgnoresValues(query: seq<Param>, other: seq<Param>)
    requires |query| == |other|
    requires forall i :: 0 <= i < |query| ==> (query[i].name == ReloadParam <==> other[i].name == ReloadParam)
    ensures CacheControl(query) == CacheControl(other)
  {
    if exists i :: 0 <= i < |query| && query[i].name == ReloadParam {
      var i :| 0 <= i < |query| && query[i].name == ReloadParam;
      assert other[i].name == ReloadParam;
    } else if exists i :: 0 <= i < |other| && other[i].name == ReloadParam {
      var i :| 0 <= i < |other| && other[i].name == ReloadParam;
      assert query[i].name == ReloadParam;
    }
  }
}
