# Discord user-asset proxy: request translation

A model of the one route of a small edge proxy, `GET /users/:id/:asset`. The
proxy looks up a Discord user record, then fetches that user's avatar,
banner or avatar decoration from Discord's content-delivery host. The model
covers the deterministic part of that route, in `src/index.ts`:

- which requests the route accepts: the id and asset patterns;
- how the asset segment splits into a kind and a format;
- which user-record field the kind selects;
- when the default avatar is used, and which of the six it is;
- the per-user asset path, with `gif` forced for animated hashes;
- forwarding the inbound query to the content-delivery request;
- the `Cache-Control` header the middleware sets.

The user record is an input value. Network calls are not modelled.

Files, one module each:

- `wrappers.dfy` (`Wrappers`): `Option`.
- `js_text.dfy` (`JsText`): the JavaScript built-ins the handler relies on.
  These are `split` and `replaceAll` on one character, `startsWith`, and the
  decimal value of a digit string (`BigInt`, `parseInt`). Also the decimal
  rendering of a number in a template string, and `>>` on a BigInt. Each has
  its inverse or reference definition proved: split/join, render/parse, and
  shift/division.
- `routing.dfy` (`Routing`): the route patterns and the split of the asset
  segment (lines 38-41).
- `asset_path.dfy` (`AssetPath`): the user record, the field lookup, the
  default-avatar index and the content-delivery path (lines 43-51).
- `query.dfy` (`Query`): query forwarding (line 32) and Cache-Control
  (lines 13-17).
- `handler.dfy` (`Handler`): the handler, composing the above (lines 37-53).

Record properties are three-valued (`Str`, `Null`, `Undefined`), as
JavaScript sees them. `user.avatar == null` is loose equality, so an absent
avatar also takes the default branch. A missing banner or decoration hash is
interpolated as the literal text `null` or `undefined`, as line 51 does.

Facts about the code that the model keeps:

- there is no `noanim` handling: `gif` is chosen from the hash alone;
- `reload` is forwarded to the content-delivery host like every other
  parameter; it is not consumed;
- ids are up to 20 digits and the shift is on an unbounded BigInt, so ids
  above 2^64 are accepted and handled exactly;
- kinds are not normalised between singular and plural; only `-` becomes
  `_`, and only in the field name. The path keeps the hyphen, as in
  `/avatar-decorations/`;
- caching, rate-limit retries and CORS are not in this file;
- the metadata response is never checked for an error status. For banner
  and decoration requests, an error body reads as a record whose hash
  fields are absent, which the model covers:
  `User(Undefined, Undefined, Undefined, d)` gives
  `/banners/{id}/undefined.{format}`. The avatar half of that case is not
  modelled (see "Left out").

## Model

| member | source | states |
|---|---|---|
| `Routing.ParseRouteExactly` | src/index.ts:38-41 | A request is accepted with kind `k` and format `f` exactly when the id is 1-20 ASCII digits, `k` is one of the three kinds, `f` one of the five formats, and the segment is `k` alone (then `f` is `webp`) or `k.f`; the id is carried unchanged |
| `Routing.ParseRouteValid` | src/index.ts:38-41 | Everything the route accepts is a valid request: digit id, listed kind, listed format, id unchanged |
| `Routing.SplitAcceptedAsset` | src/index.ts:41 | Splitting an accepted segment on `.` gives a listed kind, and as format the extension without its dot, or `webp` when there is none |
| `Routing.IdRejections` | src/index.ts:38 | The ids `123456789012345678901` (21 digits), the empty id and `12a` are not routed, whatever the asset segment |
| `Routing.RejectsPluralKind` | src/index.ts:38 | `avatars` is not routed, whatever the id |
| `Routing.RejectsUnderscoreKind` | src/index.ts:38 | `avatar_decoration`, the field spelling, is not routed, whatever the id |
| `Routing.RejectsUnlistedExtension` | src/index.ts:38 | `avatar.svg` is not routed, whatever the id |
| `Routing.RejectsDoubledExtension` | src/index.ts:38 | `avatar.png.png` is not routed, whatever the id |
| `JsText.Split` | src/index.ts:41 | `split` on one character yields at least one piece, and no piece contains the separator |
| `JsText.JoinSplit` | src/index.ts:41 | Joining the pieces of `split` with the separator gives back the string |
| `JsText.ReplaceAll` | src/index.ts:43 | `replaceAll` keeps the length, turns every `from` into `to` and leaves every other character alone |
| `AssetPath.FieldSelection` | src/index.ts:43 | The field looked up is the kind with `-` replaced by `_`: only `avatar-decoration` changes, to `avatar_decoration`; each kind reads its own hash |
| `AssetPath.DecorationFieldName` | src/index.ts:43 | `avatar-decoration` names the record field `avatar_decoration` |
| `AssetPath.DefaultBranchExactly` | src/index.ts:44-51 | The path is a default-avatar path exactly when the kind is `avatar` and the avatar is null or absent; `banner` and `avatar-decoration` never take that branch, even with a null hash |
| `AssetPath.DefaultAvatarIndex` | src/index.ts:48 | The default-avatar index is below 6, and below 5 when the discriminator is not `"0"` |
| `AssetPath.DefaultAvatarIndexValue` | src/index.ts:48 | For discriminator `"0"` the index is (id div 2^22) mod 6, exact for any id; otherwise it is the discriminator's decimal value mod 5 |
| `JsText.ShiftRightIsDivision` | src/index.ts:48 | A BigInt right shift by k bits is floor division by 2^k, for numbers of any size |
| `AssetPath.DefaultAvatarPaths` | src/index.ts:47-49 | A default avatar path is one of `/embed/avatars/0.png` to `/embed/avatars/5.png`, and never `5.png` for a legacy discriminator |
| `AssetPath.MigratedAccountExample` | src/index.ts:44-49 | Id 80351110224678912 with discriminator `"0"` and no avatar gets index 5, so the path `/embed/avatars/5.png` |
| `AssetPath.LegacyAccountExample` | src/index.ts:48 | Discriminator `"1234"` gives index 4, whatever the id |
| `JsText.NatToString` | src/index.ts:47-49 | A number renders as ASCII digits with no leading zero |
| `JsText.DecimalValueOfNatToString` | src/index.ts:47-49 | Reading a rendered number back in base 10 gives the number |
| `JsText.DecimalValue` | src/index.ts:48 | A digit string of n digits denotes a value below 10^n |
| `AssetPath.Extension` | src/index.ts:51 | The extension is `gif` exactly when the hash is a string starting with `a_` or the format is `gif`; otherwise it is the format |
| `AssetPath.UserAssetPathSegments` | src/index.ts:51 | A per-user path splits on `/` into an empty piece, the kind plus `s` with the hyphen kept, the id unchanged, and `{hash}.{ext}` |
| `AssetPath.FileNameExtension` | src/index.ts:51 | The last `.`-piece of the file name is the extension, whatever dots the hash holds |
| `Query.ForwardQuery` | src/index.ts:31-32 | The outgoing query is the existing one followed by every inbound parameter, in order, with values unchanged |
| `Query.Has` | src/index.ts:13 | `has(name)` holds exactly when some parameter carries that name |
| `Query.CacheControl` | src/index.ts:13-17 | The header is `no-store` exactly when some parameter is named `reload`, and `public, max-age=3600` otherwise |
| `Query.CacheControlIgnoresValues` | src/index.ts:13-17 | Two queries whose parameters agree position by position on being `reload` get the same header; values and other names do not matter |
| `Handler.HandleUserAsset` | src/index.ts:30-51 | No content-delivery request when the id or asset pattern fails. Otherwise the URL is the content-delivery origin plus the path for the routed request and user, with the inbound query forwarded unchanged |

## Left out

- Network I/O: the user-record fetch with its bearer token, JSON decoding, the content-delivery fetch and the response streaming (lines 20-28, 33-34). The user record is an input, and the result is the outgoing request.
- The user-record endpoint `/users/${id}` (line 42) is not modelled; the record for the routed id is given as an input.
- An error body read as a user record, for an avatar request (lines 42-48): the avatar is absent, so the default branch is taken with an undefined discriminator. `parseInt` then gives NaN and the path `/embed/avatars/NaN.png`. The `User` record holds the discriminator as a string, so it cannot express this case.
- Hono's routing and middleware plumbing (lines 8-11). Only the acceptance predicate of the two path patterns is modelled, on already-separated path segments. Percent-decoding of path segments is not modelled.
- `X-Response-Time` (lines 10-12): it is a floating-point wall-clock measurement.
- URL parsing and serialisation: the query is a list of already-decoded name/value pairs. The URL is the origin plus the path; encoding of the appended parameters is not modelled.
- AssetPath.DefaultAvatarIndex: requires the discriminator to be `"0"` or 1-15 ASCII digits. JavaScript's `parseInt` on other text (leading blanks, a sign, a `0x` prefix, trailing junk, or no digits, giving `NaN.png`) is not modelled. Neither is double rounding above 15 digits.
- Handler.HandleUserAsset: carries the same discriminator requirement, and only for a request that matches the route and takes the default-avatar branch.
