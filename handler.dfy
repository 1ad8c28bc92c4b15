/**
 * The route handler for `GET /users/:id/:asset` (src/index.ts:37-53), with
 * the user record it fetches given as an input: the request that reaches the
 * content-delivery host, or none when the route does not match.
 */
module Handler {
  import opened Wrappers
  import opened Routing
  import opened AssetPath
  import opened Query

  /** The origin the `cdn` helper prefixes to every endpoint. */
  const CdnOrigin: string := "https://cdn.discordapp.com"

  /** The outgoing content-delivery request: the URL without its query, and the query. */
  datatype CdnRequest = CdnRequest(url: string, query: seq<Param>)

  /**
   * Translates a request: None when the id or the asset segment fails its
   * pattern (the route is not matched); otherwise the content-delivery URL
   * for the routed request and the user record, carrying every inbound query
   * parameter in order.
   */
  method HandleUserAsset(id: string, asset: string, user: User, query: seq<Param>)
    returns (cdn: Option<CdnRequest>)
    requires IdMatches(id) && AssetMatches(asset) && UsesDefaultAvatar(SplitAsset(asset).0, user)
             ==> ModelledDiscriminator(user.discriminator)
    ensures cdn.None? <==> !(IdMatches(id) && AssetMatches(asset))
    ensures cdn.Some? ==>
      ParseRoute(id, asset).Some?
      && Translatable(ParseRoute(id, asset).value, user)
      && cdn.value == CdnRequest(CdnOrigin + CdnPath(ParseRoute(id, asset).value, user), query)
  {
    var route := ParseRoute(id, asset);
    if route.None? {
      return None;
    }
    ParseRouteValid(id, asset);
    var req := route.value;
    var path := CdnPath(req, user);
    var forwarded := ForwardQuery([], query);
    cdn := Some(CdnRequest(CdnOrigin + path, forwarded));
  }
}
