/**
 * The route of the single handler: the path-parameter patterns that decide
 * whether a request reaches it at all (src/index.ts:38) and the split of the
 * asset segment into a kind and a format (src/index.ts:40-41).
 */
module Routing {
  import opened Wrappers
  import opened JsText

  /** The alternatives of the asset pattern, as written in the route. */
  const KindTokens: seq<string> := ["avatar", "banner", "avatar-decoration"]
  const ExtensionSuffixes: seq<string> := [".png", ".webp", ".jpg", ".jpeg", ".gif"]

  /** The extensions without their dot: the formats a request can name. */
  const Formats: seq<string> := ["png", "webp", "jpg", "jpeg", "gif"]

  /** The format used when the asset segment has no extension. */
  const DefaultFormat: string := "webp"

  /** The `{1,20}` bound of the id pattern. */
  const MaxIdDigits: nat := 20

  /** The id pattern `[0-9]{1,20}`, matched against the whole segment. */
  predicate IdMatches(id: string) {
    1 <= |id| <= MaxIdDigits && IsDigits(id)
  }

  /** The asset pattern: one kind alternative, optionally followed by one extension alternative. */
  predicate AssetMatches(asset: string) {
    (exists i | 0 <= i < |KindTokens| :: asset == KindTokens[i])
    || (exists i, j | 0 <= i < |KindTokens| && 0 <= j < |ExtensionSuffixes| ::
          asset == KindTokens[i] + ExtensionSuffixes[j])
  }

  /** The parameters the handler works with once the route has matched. */
  datatype Request = Request(id: string, kind: string, format: string)

  /** What the route guarantees of a request that reaches the handler. */
  predicate ValidRequest(req: Request) {
    IdMatches(req.id) && req.kind in KindTokens && req.format in Formats
  }

  /**
   * The destructuring split of the asset segment on `.` (src/index.ts:41):
   * the first piece is the kind; the second, when there is one, the format,
   * which otherwise defaults to "webp". Pieces after the second are ignored.
   */
  function SplitAsset(assetRaw: string): (string, string) {
    var parts := Split(assetRaw, '.');
    (parts[0], if |parts| >= 2 then parts[1] else DefaultFormat)
  }

  /** The request the handler sees, or None when the route does not match. */
  function ParseRoute(id: string, asset: string): Option<Request> {
    if IdMatches(id) && AssetMatches(asset) then
      var (kind, format) := SplitAsset(asset);
      Some(Request(id, kind, format))
    else
      None
  }

  lemma NoDotInKinds()
    ensures forall i :: 0 <= i < |KindTokens| ==> '.' !in KindTokens[i]
  {
    assert '.' !in KindTokens[0];
    assert '.' !in KindTokens[1];
    assert '.' !in KindTokens[2];
  }

  /** Every kind is a lower-case word: no dot, no slash, first letter `a` or `b`. */
  lemma KindSpelling(kind: string)
    requires kind in KindTokens
    ensures '.' !in kind && '/' !in kind
    ensures |kind| >= 1 && (kind[0] == 'a' || kind[0] == 'b')
  {
    if kind == KindTokens[0] {
      assert '/' !in KindTokens[0];
    } else if kind == KindTokens[1] {
      assert '/' !in KindTokens[1];
    } else {
      assert '/' !in KindTokens[2];
    }
    NoDotInKinds();
  }

  lemma SuffixesAreDotFormat()
    ensures |ExtensionSuffixes| == |Formats|
    ensures forall j :: 0 <= j < |Formats| ==>
      ExtensionSuffixes[j] == ['.'] + Formats[j] && '.' !in Formats[j]
  {
    assert ExtensionSuffixes[0] == ['.'] + Formats[0] && '.' !in Formats[0];
    assert ExtensionSuffixes[1] == ['.'] + Formats[1] && '.' !in Formats[1];
    assert ExtensionSuffixes[2] == ['.'] + Formats[2] && '.' !in Formats[2];
    assert ExtensionSuffixes[3] == ['.'] + Formats[3] && '.' !in Formats[3];
    assert ExtensionSuffixes[4] == ['.'] + Formats[4] && '.' !in Formats[4];
  }

  /** A kind alone splits into itself and the default format. */
  lemma SplitBareKind(kind: string)
    requires kind in KindTokens
    ensures SplitAsset(kind) == (kind, DefaultFormat)
  {
    NoDotInKinds();
    SplitWithoutSeparator(kind, '.');
  }

  /** A kind with an extension splits into the kind and the extension without its dot. */
  lemma SplitKindWithFormat(kind: string, format: string)
    requires kind in KindTokens && format in Formats
    ensures SplitAsset(kind + "." + format) == (kind, format)
  {
    NoDotInKinds();
    SuffixesAreDotFormat();
    SplitOnce(kind, format, '.');
  }

  /**
   * Splitting an accepted asset segment yields one of the three kinds and,
   * as format, the extension without its dot, or "webp" when the segment
   * has no extension.
   */
  lemma SplitAcceptedAsset(asset: string)
    requires AssetMatches(asset)
    ensures SplitAsset(asset).0 in KindTokens
    ensures SplitAsset(asset).1 in Formats
    ensures (asset == SplitAsset(asset).0 && SplitAsset(asset).1 == DefaultFormat)
         || asset == SplitAsset(asset).0 + "." + SplitAsset(asset).1
  {
    SuffixesAreDotFormat();
    if i :| 0 <= i < |KindTokens| && asset == KindTokens[i] {
      SplitBareKind(asset);
    } else {
      var i, j :| 0 <= i < |KindTokens| && 0 <= j < |ExtensionSuffixes| &&
        asset == KindTokens[i] + ExtensionSuffixes[j];
      assert asset == KindTokens[i] + "." + Formats[j];
      SplitKindWithFormat(KindTokens[i], Formats[j]);
    }
  }

  /**
   * The route accepts exactly the requests whose id is 1 to 20 ASCII digits
   * and whose asset segment is a kind, alone (format "webp") or followed by
   * a dot and one of the five formats; the parsed request carries the id
   * unchanged.
   */
  lemma ParseRouteExactly(id: string, asset: string, kind: string, format: string)
    ensures ParseRoute(id, asset) == Some(Request(id, kind, format))
        <==> IdMatches(id) && kind in KindTokens && format in Formats
             && ((asset == kind && format == DefaultFormat) || asset == kind + "." + format)
  {
    SuffixesAreDotFormat();
    if ParseRoute(id, asset) == Some(Request(id, kind, format)) {
      SplitAcceptedAsset(asset);
    }
    if IdMatches(id) && kind in KindTokens && format in Formats {
      var i :| 0 <= i < |KindTokens| && KindTokens[i] == kind;
      if asset == kind && format == DefaultFormat {
        SplitBareKind(kind);
      } else if asset == kind + "." + format {
        var j :| 0 <= j < |Formats| && Formats[j] == format;
        assert asset == KindTokens[i] + ExtensionSuffixes[j];
        SplitKindWithFormat(kind, format);
      }
    }
  }

  /** Whatever the route accepts is a valid request. */
  lemma ParseRouteValid(id: string, asset: string)
    requires ParseRoute(id, asset).Some?
    ensures ValidRequest(ParseRoute(id, asset).value)
    ensures ParseRoute(id, asset).value.id == id
  {
    SplitAcceptedAsset(asset);
  }

  /** Ids the route turns away, whatever the asset segment: too many digits, no digit, a non-digit. */
  lemma IdRejections(asset: string)
    ensures ParseRoute("123456789012345678901", asset) == None
    ensures ParseRoute("", asset) == None
    ensures ParseRoute("12a", asset) == None
  {
    assert !IsDigits("12a") by { assert !IsDigit("12a"[2]); }
  }

  /** An asset segment whose split is not a kind with a listed format is turned away. */
  lemma RejectsByParts(id: string, asset: string, kind: string, format: string)
    requires SplitAsset(asset) == (kind, format)
    requires kind !in KindTokens || format !in Formats
             || (asset != kind + "." + format && (asset != kind || format != DefaultFormat))
    ensures ParseRoute(id, asset) == None
  {
    ParseRouteExactly(id, asset, kind, format);
  }

  // The rejected segments below reach each lemma through a parameter fixed by
  // its requires: given as a literal, the segment would make the verifier
  // unfold Split character by character, which is far costlier.

  /** A plural kind is turned away, whatever the id. */
  lemma RejectsPluralKind(id: string, asset: string)
    requires asset == "avatars"
    ensures ParseRoute(id, asset) == None
  {
    SplitWithoutSeparator(asset, '.');
    RejectsByParts(id, asset, asset, DefaultFormat);
  }

  /** The field spelling of a kind is not a route spelling, whatever the id. */
  lemma RejectsUnderscoreKind(id: string, asset: string)
    requires asset == "avatar_decoration"
    ensures ParseRoute(id, asset) == None
  {
    SplitWithoutSeparator(asset, '.');
    assert asset[6] != KindTokens[2][6];
    RejectsByParts(id, asset, asset, DefaultFormat);
  }

  /** An extension outside the five listed is turned away, whatever the id. */
  lemma RejectsUnlistedExtension(id: string, asset: string)
    requires asset == "avatar.svg"
    ensures ParseRoute(id, asset) == None
  {
    var kind, format := "avatar", "svg";
    assert asset == kind + "." + format;
    SplitOnce(kind, format, '.');
    assert forall j :: 0 <= j < |Formats| ==> Formats[j][0] != format[0];
    RejectsByParts(id, asset, kind, format);
  }

  /** Two extensions are turned away, whatever the id. */
  lemma RejectsDoubledExtension(id: string, asset: string)
    requires asset == "avatar.png.png"
    ensures ParseRoute(id, asset) == None
  {
    var kind, format := "avatar", "png";
    assert asset == kind + "." + (format + "." + format);
    SplitOnce(format, format, '.');
    SplitFirst(kind, format + "." + format, '.');
    RejectsByParts(id, asset, kind, format);
  }
}
