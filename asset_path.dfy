/**
 * The translation of a routed request and the user record into the path on
 * the content-delivery host (src/index.ts:43-51): the record field the asset
 * kind names, the default-avatar fallback and its index, and the per-user
 * asset path with its animated-hash extension.
 */
module AssetPath {
  import opened JsText
  import opened Routing

  /** A property of the decoded user record as JavaScript sees it. */
  datatype JsValue = Str(s: string) | Null | Undefined

  /** `v == null`, loose equality: true for both null and undefined. */
  predicate IsNullish(v: JsValue) {
    v.Null? || v.Undefined?
  }

  /** The text a template string interpolates for the value. */
  function Render(v: JsValue): string {
    match v
    case Str(s) => s
    case Null => "null"
    case Undefined => "undefined"
  }

  /** The fields of the user record the handler reads. */
  datatype User = User(avatar: JsValue, banner: JsValue, avatarDecoration: JsValue, discriminator: string)

  /** A record property looked up by name: the three hash fields by their record names; any other name is undefined. */
  function Property(user: User, name: string): JsValue {
    if name == "avatar" then user.avatar
    else if name == "banner" then user.banner
    else if name == "avatar_decoration" then user.avatarDecoration
    else Undefined
  }

  /** The record field a kind names: every hyphen replaced by an underscore (src/index.ts:43). */
  function FieldName(kind: string): string {
    ReplaceAll(kind, '-', '_')
  }

  /** The hash the handler looks up for a kind. */
  function AssetHash(user: User, kind: string): JsValue {
    Property(user, FieldName(kind))
  }

  /** The record field spelled with `_` where the kind has `-`. */
  lemma DecorationFieldName(kind: string)
    requires kind == "avatar-decoration"
    ensures FieldName(kind) == "avatar_decoration"
  {
    var r := FieldName(kind);
    forall i | 0 <= i < |kind|
      ensures r[i] == "avatar_decoration"[i]
    {
    }
  }

  /**
   * Only `avatar-decoration` changes its spelling: it names the record field
   * `avatar_decoration`; each kind reads its own hash field.
   */
  lemma FieldSelection(user: User, kind: string)
    requires kind in KindTokens
    ensures kind == "avatar" ==> FieldName(kind) == "avatar" && AssetHash(user, kind) == user.avatar
    ensures kind == "banner" ==> FieldName(kind) == "banner" && AssetHash(user, kind) == user.banner
    ensures kind == "avatar-decoration" ==>
      FieldName(kind) == "avatar_decoration" && AssetHash(user, kind) == user.avatarDecoration
  {
    if kind == "avatar-decoration" {
      DecorationFieldName(kind);
    } else {
      assert '-' !in kind;
      ReplaceAllWithout(kind, '-', '_');
    }
  }

  /** The default-avatar branch (src/index.ts:44): the avatar is loosely null and the kind is exactly "avatar". */
  predicate UsesDefaultAvatar(kind: string, user: User) {
    IsNullish(user.avatar) && kind == "avatar"
  }

  /** The longest digit string whose value every double represents exactly. */
  const MaxExactDigits: nat := 15

  /**
   * The discriminators the model covers: "0", or a digit string short enough
   * for `parseInt` to give its exact value.
   */
  predicate ModelledDiscriminator(discriminator: string) {
    discriminator == "0" || (1 <= |discriminator| <= MaxExactDigits && IsDigits(discriminator))
  }

  /** JavaScript's parseInt for a digit string of at most fifteen digits. */
  function ParseInt(s: string): nat
    requires 1 <= |s| <= MaxExactDigits && IsDigits(s)
  {
    DecimalValue(s)
  }

  /** The shift width of the default-avatar index. */
  const SnowflakeShift: nat := 22

  /**
   * The default-avatar index (src/index.ts:48): for a migrated account
   * (discriminator "0"), the id as a BigInt shifted right by 22 bits, modulo
   * 6; otherwise the parsed discriminator modulo 5.
   * Both operands are non-negative, so the source's truncating `%` agrees
   * with Dafny's.
   */
  function DefaultAvatarIndex(id: string, discriminator: string): (index: nat)
    requires IsDigits(id) && ModelledDiscriminator(discriminator)
    ensures index < 6
    ensures discriminator != "0" ==> index < 5
  {
    if discriminator == "0" then ShiftRight(DecimalValue(id), SnowflakeShift) % 6
    else ParseInt(discriminator) % 5
  }

  /**
   * The shift is exact on the whole id, however large: the migrated index is
   * the id divided by 2^22, modulo 6; the legacy index is the discriminator's
   * decimal value modulo 5.
   */
  lemma DefaultAvatarIndexValue(id: string, discriminator: string)
    requires IsDigits(id) && ModelledDiscriminator(discriminator)
    ensures discriminator == "0" ==>
      DefaultAvatarIndex(id, discriminator) == (DecimalValue(id) / Pow2(22)) % 6
    ensures discriminator != "0" ==>
      DefaultAvatarIndex(id, discriminator) == DecimalValue(discriminator) % 5
  {
    ShiftRightIsDivision(DecimalValue(id), SnowflakeShift);
  }

  const DefaultAvatarPrefix: string := "/embed/avatars/"

  /** The default-avatar path: the index rendered in decimal under /embed/avatars/, as a png. */
  function DefaultAvatarPath(index: nat): string {
    DefaultAvatarPrefix + NatToString(index) + ".png"
  }

  /** The prefix that marks an animated asset hash. */
  const AnimatedPrefix: string := "a_"

  /** The hash is a string starting with "a_"; the optional call makes a null or undefined hash count as not animated. */
  predicate IsAnimated(hash: JsValue) {
    hash.Str? && StartsWith(hash.s, AnimatedPrefix)
  }

  /** The extension (src/index.ts:51): gif for an animated hash, the requested format otherwise. */
  function Extension(hash: JsValue, format: string): (ext: string)
    ensures ext == "gif" <==> IsAnimated(hash) || format == "gif"
    ensures !IsAnimated(hash) ==> ext == format
  {
    if IsAnimated(hash) then "gif" else format
  }

  /** The file name of a per-user asset: the rendered hash, a dot, the extension. */
  function FileName(hash: JsValue, format: string): string {
    Render(hash) + "." + Extension(hash, format)
  }

  /** The per-user asset path (src/index.ts:51): the kind as routed with a plural s, hyphen kept, then the id, then the file name. */
  function UserAssetPath(kind: string, id: string, hash: JsValue, format: string): string {
    "/" + (kind + "s") + "/" + id + "/" + FileName(hash, format)
  }

  /** What the default-avatar branch needs to be modelled for this request. */
  predicate Translatable(req: Request, user: User) {
    ValidRequest(req)
    && (UsesDefaultAvatar(req.kind, user) ==> ModelledDiscriminator(user.discriminator))
  }

  /** The content-delivery path for a routed request (src/index.ts:44-51). */
  function CdnPath(req: Request, user: User): string
    requires Translatable(req, user)
  {
    if UsesDefaultAvatar(req.kind, user) then
      DefaultAvatarPath(DefaultAvatarIndex(req.id, user.discriminator))
    else
      UserAssetPath(req.kind, req.id, AssetHash(user, req.kind), req.format)
  }

  /** The six default-avatar paths. */
  predicate IsDefaultAvatarPath(path: string) {
    StartsWith(path, DefaultAvatarPrefix)
  }

  lemma StartsWithConcat(a: string, b: string)
    ensures StartsWith(a + b, a)
  {
    assert (a + b)[..|a|] == a;
  }

  /** Every default-avatar path carries the prefix. */
  lemma DefaultAvatarPathPrefixed(index: nat)
    ensures IsDefaultAvatarPath(DefaultAvatarPath(index))
  {
    var rest := NatToString(index) + ".png";
    assert DefaultAvatarPath(index) == DefaultAvatarPrefix + rest;
    StartsWithConcat(DefaultAvatarPrefix, rest);
  }

  /** A per-user asset path never carries the default-avatar prefix. */
  lemma UserAssetPathNotDefault(kind: string, id: string, hash: JsValue, format: string)
    requires kind in KindTokens
    ensures !IsDefaultAvatarPath(UserAssetPath(kind, id, hash, format))
  {
    KindSpelling(kind);
    var path := UserAssetPath(kind, id, hash, format);
    assert path[1] == ("/" + kind)[1] == kind[0];
    assert DefaultAvatarPrefix[1] == 'e';
  }

  /**
   * The default-avatar path is taken exactly when the kind is `avatar` and
   * the avatar is null or absent; `banner` and `avatar-decoration` never take
   * it, even when their own hash is null.
   */
  lemma DefaultBranchExactly(req: Request, user: User)
    requires Translatable(req, user)
    ensures IsDefaultAvatarPath(CdnPath(req, user)) <==> req.kind == "avatar" && IsNullish(user.avatar)
  {
    if UsesDefaultAvatar(req.kind, user) {
      DefaultAvatarPathPrefixed(DefaultAvatarIndex(req.id, user.discriminator));
    } else {
      UserAssetPathNotDefault(req.kind, req.id, AssetHash(user, req.kind), req.format);
    }
  }

  /**
   * A per-user asset path reads back as its parts: an empty piece before the
   * first slash, the kind with its plural `s` (hyphen kept), the id exactly as
   * routed, and the file name.
   */
  lemma UserAssetPathSegments(kind: string, id: string, hash: JsValue, format: string)
    requires kind in KindTokens && IdMatches(id) && format in Formats
    requires '/' !in Render(hash)
    ensures Split(UserAssetPath(kind, id, hash, format), '/')
        == ["", kind + "s", id, FileName(hash, format)]
  {
    var name := FileName(hash, format);
    assert '/' !in Extension(hash, format) by {
      SuffixesAreDotFormat();
    }
    assert '/' !in name;
    KindSpelling(kind);
    assert '/' !in kind + "s";
    assert '/' !in id by {
      assert forall i :: 0 <= i < |id| ==> IsDigit(id[i]);
    }
    SplitThreeLed(kind + "s", id, name, '/');
  }

  /** The last dot-separated piece of the file name is the extension, whatever dots the hash holds. */
  lemma FileNameExtension(hash: JsValue, format: string)
    requires format in Formats
    ensures var pieces := Split(FileName(hash, format), '.');
      pieces[|pieces| - 1] == Extension(hash, format)
  {
    assert '.' !in Extension(hash, format) by {
      SuffixesAreDotFormat();
    }
    SplitLast(Render(hash), Extension(hash, format), '.');
  }

  /** The index digit of each default avatar. */
  lemma DefaultAvatarPathDigit(index: nat)
    requires index < 6
    ensures DefaultAvatarPath(index) in {
      "/embed/avatars/0.png", "/embed/avatars/1.png", "/embed/avatars/2.png",
      "/embed/avatars/3.png", "/embed/avatars/4.png", "/embed/avatars/5.png"}
    ensures DefaultAvatarPath(index) == "/embed/avatars/5.png" <==> index == 5
  {
    NatToStringSmall(index);
    var path := DefaultAvatarPath(index);
    assert path == "/embed/avatars/" + [DigitChar(index)] + ".png";
    if index == 0 {
      assert path == "/embed/avatars/0.png";
    } else if index == 1 {
      assert path == "/embed/avatars/1.png";
    } else if index == 2 {
      assert path == "/embed/avatars/2.png";
    } else if index == 3 {
      assert path == "/embed/avatars/3.png";
    } else if index == 4 {
      assert path == "/embed/avatars/4.png";
    } else {
      assert path == "/embed/avatars/5.png";
    }
    assert path[15] == DigitChar(index);
  }

  /**
   * A default avatar is one of `/embed/avatars/0.png` to `/embed/avatars/5.png`,
   * and never the sixth for a legacy discriminator.
   */
  lemma DefaultAvatarPaths(req: Request, user: User)
    requires Translatable(req, user) && UsesDefaultAvatar(req.kind, user)
    ensures CdnPath(req, user) in {
      "/embed/avatars/0.png", "/embed/avatars/1.png", "/embed/avatars/2.png",
      "/embed/avatars/3.png", "/embed/avatars/4.png", "/embed/avatars/5.png"}
    ensures user.discriminator != "0" ==> CdnPath(req, user) != "/embed/avatars/5.png"
  {
    DefaultAvatarPathDigit(DefaultAvatarIndex(req.id, user.discriminator));
  }

  /**
   * A migrated account whose id denotes 80351110224678912, with no avatar,
   * gets default avatar 5: 80351110224678912 >> 22 is 19157197529.
   */
  lemma MigratedAccountExample(id: string)
    requires IdMatches(id) && DecimalValue(id) == 80351110224678912
    ensures DefaultAvatarIndex(id, "0") == 5
    ensures CdnPath(Request(id, "avatar", "webp"), User(Null, Null, Null, "0")) == "/embed/avatars/5.png"
  {
    DefaultAvatarIndexValue(id, "0");
    Pow2Of22();
    assert 80351110224678912 / 4194304 == 19157197529;
    assert ValidRequest(Request(id, "avatar", "webp"));
    DefaultAvatarPathDigit(5);
  }

  lemma Pow2Of22()
    ensures Pow2(22) == 4194304
  {
    assert Pow2(11) == 2048;
    assert Pow2(16) == 65536;
  }

  /** A legacy account with discriminator 1234 gets default avatar 4, whatever its id. */
  lemma LegacyAccountExample(id: string)
    requires IsDigits(id)
    ensures DefaultAvatarIndex(id, "1234") == 4
  {
    DefaultAvatarIndexValue(id, "1234");
  }
}
