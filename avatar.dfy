/**
 * Doctor avatars are stored as bare base64 text and served as `data:` URIs. On the way
 * in the backends strip a data-URI prefix (`normalize_avatar` in the Python backends,
 * `normalizeAvatarValue` in the Express port); on the way out they re-add a PNG prefix
 * (`to_avatar_data_uri`, `getAvatarBase64`), falling back to a default image.
 */
module Avatar {

  import opened Values
  import opened Text

  newtype byte = x: int | 0 <= x < 256

  /** A value as the helpers receive it: SQL NULL or an absent JSON field, a string, a
      BLOB's bytes, or any other JSON value. */
  datatype Value = Null | Str(s: string) | Bytes(data: seq<byte>) | Other

  const PngPrefix: string := "data:image/png;base64,"
  const JpegPrefix: string := "data:image/jpeg;base64,"

  /** Characters of base64 text. */
  predicate IsBase64Char(c: char) {
    'A' <= c <= 'Z' || 'a' <= c <= 'z' || '0' <= c <= '9' || c == '+' || c == '/' || c == '='
  }

  predicate IsBase64Text(s: string) {
    forall i :: 0 <= i < |s| ==> IsBase64Char(s[i])
  }

  /** Base64 text holds no ':' so neither prefix occurs in it, and no whitespace. */
  lemma Base64TextIsPlain(b: string)
    requires IsBase64Text(b)
    ensures !Contains(b, PngPrefix) && !Contains(b, JpegPrefix)
    ensures Trim(b) == b
  {
    assert PngPrefix[4] == ':' && JpegPrefix[4] == ':';
    NotContainsMissingChar(b, PngPrefix, 4);
    NotContainsMissingChar(b, JpegPrefix, 4);
    TrimWithoutSpaces(b);
  }

  // ---------------------------------------------------------------------------
  // Python: normalize_avatar
  // ---------------------------------------------------------------------------

  /** Nothing for a falsy or non-string value; otherwise every PNG prefix removed, then
      every JPEG prefix, then surrounding whitespace. */
  function NormalizeAvatar(v: Value): (r: Option<string>)
    ensures r.None? <==> !(v.Str? && v.s != "")
    ensures r.Some? ==> |r.value| <= |v.s|
    ensures r.Some? && r.value != [] ==> !IsSpace(r.value[0]) && !IsSpace(r.value[|r.value| - 1])
  {
    if v.Str? && v.s != "" then Some(Trim(RemoveAll(RemoveAll(v.s, PngPrefix), JpegPrefix)))
    else None
  }

  /** Text with neither prefix is only trimmed. */
  lemma NormalizePlain(s: string)
    requires s != "" && !Contains(s, PngPrefix) && !Contains(s, JpegPrefix)
    ensures NormalizeAvatar(Str(s)) == Some(Trim(s))
  {
    RemoveAllAbsent(s, PngPrefix);
    RemoveAllAbsent(s, JpegPrefix);
  }

  /** The PNG prefix does not occur in a JPEG data URI of base64 text: its only ':' is
      at offset 4, which pins any occurrence to offset 0, where "png" meets "jpeg". */
  lemma PngNotInJpegUri(b: string)
    requires IsBase64Text(b)
    ensures !Contains(JpegPrefix + b, PngPrefix)
  {
    var s := JpegPrefix + b;
    assert forall k :: 0 <= k < |JpegPrefix| && k != 4 ==> JpegPrefix[k] != ':';
    assert PngPrefix[4] == ':' && PngPrefix[11] == 'p' && JpegPrefix[11] == 'j';
    ContainsIffOccurs(s, PngPrefix);
    forall i
      ensures !OccursAt(s, PngPrefix, i)
    {
      if 0 <= i <= |s| - |PngPrefix| {
        var w := s[i..i + |PngPrefix|];
        if i == 0 {
          assert w[11] == 'j';
        } else if i + 4 < |JpegPrefix| {
          assert w[4] == JpegPrefix[i + 4];
        } else {
          assert w[4] == b[i + 4 - |JpegPrefix|];
        }
      }
    }
  }

  /** Removing the PNG prefix, then the JPEG prefix, from a data URI of either kind
      around base64 text leaves the text. */
  lemma RemovePrefixes(prefix: string, b: string)
    requires prefix == PngPrefix || prefix == JpegPrefix
    requires IsBase64Text(b)
    ensures RemoveAll(RemoveAll(prefix + b, PngPrefix), JpegPrefix) == b
  {
    Base64TextIsPlain(b);
    RemoveAllAbsent(b, JpegPrefix);
    if prefix == PngPrefix {
      RemoveAllLeading(PngPrefix, b);
      RemoveAllAbsent(b, PngPrefix);
    } else {
      PngNotInJpegUri(b);
      RemoveAllAbsent(JpegPrefix + b, PngPrefix);
      RemoveAllLeading(JpegPrefix, b);
    }
  }

  /** A PNG or JPEG data URI around base64 text normalises to that text. */
  lemma NormalizeDataUri(prefix: string, b: string)
    requires prefix == PngPrefix || prefix == JpegPrefix
    requires IsBase64Text(b)
    ensures NormalizeAvatar(Str(prefix + b)) == Some(b)
  {
    RemovePrefixes(prefix, b);
    Base64TextIsPlain(b);
  }

  // ---------------------------------------------------------------------------
  // Express: normalizeAvatarValue (one anchored `data:image/<type>;base64,` prefix)
  // ---------------------------------------------------------------------------

  const ImagePrefix: string := "data:image/"
  const Base64Marker: string := ";base64,"

  /** The character class `[a-zA-Z0-9+/]`. */
  predicate IsTypeChar(c: char) {
    'a' <= c <= 'z' || 'A' <= c <= 'Z' || '0' <= c <= '9' || c == '+' || c == '/'
  }

  /** Length of the longest prefix of type characters. */
  function TypeRun(s: string): (n: nat)
    ensures n <= |s|
    ensures forall i :: 0 <= i < n ==> IsTypeChar(s[i])
    ensures n < |s| ==> !IsTypeChar(s[n])
  {
    if s != [] && IsTypeChar(s[0]) then 1 + TypeRun(s[1..]) else 0
  }

  lemma {:induction false} TypeRunOfType(t: string, rest: string)
    requires forall i :: 0 <= i < |t| ==> IsTypeChar(t[i])
    requires rest == [] || !IsTypeChar(rest[0])
    ensures TypeRun(t + rest) == |t|
  {
    if t != [] {
      assert (t + rest)[1..] == t[1..] + rest;
      TypeRunOfType(t[1..], rest);
    }
  }

  /** Length of the match of `^data:image\/[a-zA-Z0-9+/]+;base64,`, if it matches. The
      class excludes ';', so the greedy run is the only way to reach the marker. */
  function DataUriPrefixLength(s: string): (r: Option<nat>)
    ensures r.Some? ==> |ImagePrefix| + |Base64Marker| < r.value <= |s| && ImagePrefix <= s
  {
    if ImagePrefix <= s then
      var rest := s[|ImagePrefix|..];
      var n := TypeRun(rest);
      if n > 0 && Base64Marker <= rest[n..] then Some(|ImagePrefix| + n + |Base64Marker|) else None
    else None
  }

  function StripDataUriPrefix(s: string): (r: string)
    ensures |r| <= |s|
  {
    match DataUriPrefixLength(s)
    case None => s
    case Some(n) => s[n..]
  }

  /** `s` starts with `data:image/`, then `t` class characters (at least one), then
      `;base64,`: a match of the pattern whose type part has length `t`. */
  predicate PrefixMatchWithType(s: string, t: nat) {
    && 0 < t
    && |ImagePrefix| + t + |Base64Marker| <= |s|
    && s[..|ImagePrefix|] == ImagePrefix
    && (forall i :: |ImagePrefix| <= i < |ImagePrefix| + t ==> IsTypeChar(s[i]))
    && s[|ImagePrefix| + t..|ImagePrefix| + t + |Base64Marker|] == Base64Marker
  }

  /** A run of class characters followed by one outside the class is the whole run. */
  lemma TypeRunExact(rest: string, t: nat)
    requires t < |rest| && !IsTypeChar(rest[t])
    requires forall i :: 0 <= i < t ==> IsTypeChar(rest[i])
    ensures TypeRun(rest) == t
  {
  }

  /** Every match of the pattern is the one the matcher finds. */
  lemma PrefixMatchFound(s: string, t: nat)
    requires PrefixMatchWithType(s, t)
    ensures DataUriPrefixLength(s) == Some(|ImagePrefix| + t + |Base64Marker|)
  {
    var k := |ImagePrefix|;
    assert ImagePrefix <= s;
    var rest := s[k..];
    forall i | 0 <= i < t ensures IsTypeChar(rest[i]) {
      assert rest[i] == s[k + i];
    }
    assert rest[t] == s[k + t] == Base64Marker[0];
    TypeRunExact(rest, t);
    assert rest[t..][..|Base64Marker|] == s[k + t..k + t + |Base64Marker|];
  }

  /** What the matcher finds is a match of the pattern. */
  lemma PrefixMatchSound(s: string, t: nat)
    requires DataUriPrefixLength(s) == Some(|ImagePrefix| + t + |Base64Marker|)
    ensures PrefixMatchWithType(s, t)
  {
    var k := |ImagePrefix|;
    var rest := s[k..];
    assert TypeRun(rest) == t;
    forall i | k <= i < k + t ensures IsTypeChar(s[i]) {
      assert s[i] == rest[i - k];
    }
    assert s[k + t..k + t + |Base64Marker|] == rest[t..][..|Base64Marker|];
  }

  /** The matcher answers a length exactly when the pattern matches with that type part:
      a match is found whenever one exists, and only then. */
  lemma DataUriPrefixMatches(s: string, t: nat)
    ensures PrefixMatchWithType(s, t) <==> DataUriPrefixLength(s) == Some(|ImagePrefix| + t + |Base64Marker|)
  {
    if PrefixMatchWithType(s, t) {
      PrefixMatchFound(s, t);
    }
    if DataUriPrefixLength(s) == Some(|ImagePrefix| + t + |Base64Marker|) {
      PrefixMatchSound(s, t);
    }
  }

  /** A data URI whose media type carries a parameter (`svg+xml;charset=utf-8`) does not
      match: `;` is outside the class, so the prefix stays on. */
  lemma JsKeepsParameterisedDataUri()
    ensures var s := ImagePrefix + "svg+xml" + ";charset=utf-8" + Base64Marker + "QUJD";
            DataUriPrefixLength(s).None? && StripDataUriPrefix(s) == s
  {
    var t, tail := "svg+xml", ";charset=utf-8" + Base64Marker + "QUJD";
    var s := ImagePrefix + t + ";charset=utf-8" + Base64Marker + "QUJD";
    assert s == ImagePrefix + (t + tail);
    assert ImagePrefix <= s;
    var rest := s[|ImagePrefix|..];
    assert rest == t + tail;
    assert tail[0] == ';';
    TypeRunOfType(t, tail);
    assert rest[|t|..] == tail;
    assert tail[1] == 'c' != Base64Marker[1];
  }

  /** Nothing for a falsy or non-string value; otherwise one leading data-URI prefix
      removed, then surrounding whitespace. */
  function JsNormalizeAvatar(v: Value): (r: Option<string>)
    ensures r.None? <==> !(v.Str? && v.s != "")
    ensures r.Some? ==> |r.value| <= |v.s|
  {
    if v.Str? && v.s != "" then Some(Trim(StripDataUriPrefix(v.s))) else None
  }

  /** A data URI of any image type made of class characters loses exactly its prefix. */
  lemma JsStripsDataUri(t: string, body: string)
    requires t != [] && forall i :: 0 <= i < |t| ==> IsTypeChar(t[i])
    ensures StripDataUriPrefix(ImagePrefix + t + Base64Marker + body) == body
  {
    var s := ImagePrefix + t + Base64Marker + body;
    assert ImagePrefix <= s;
    var rest := s[|ImagePrefix|..];
    assert rest == t + (Base64Marker + body);
    TypeRunOfType(t, Base64Marker + body);
    assert rest[|t|..] == Base64Marker + body;
  }

  /** The prefix is anchored: text not starting with `data:image/` is only trimmed. */
  lemma JsLeavesUnprefixed(s: string)
    requires s != "" && !(ImagePrefix <= s)
    ensures JsNormalizeAvatar(Str(s)) == Some(Trim(s))
  {
  }

  /** The two prefixes the Python backends strip are instances of the Express pattern. */
  lemma PrefixShapes()
    ensures PngPrefix == ImagePrefix + "png" + Base64Marker
    ensures JpegPrefix == ImagePrefix + "jpeg" + Base64Marker
  {
  }

  /** The Express normaliser also reduces a PNG or JPEG data URI to its base64 text. */
  lemma JsNormalizeDataUri(prefix: string, b: string)
    requires prefix == PngPrefix || prefix == JpegPrefix
    requires IsBase64Text(b)
    ensures JsNormalizeAvatar(Str(prefix + b)) == Some(b)
  {
    var t := if prefix == PngPrefix then "png" else "jpeg";
    PrefixShapes();
    assert prefix == ImagePrefix + t + Base64Marker;
    JsStripsDataUri(t, b);
    assert StripDataUriPrefix(prefix + b) == b;
    Base64TextIsPlain(b);
  }

  /** On a PNG or JPEG data URI around base64 text both backends store the same text. */
  lemma BackendsAgreeOnDataUri(prefix: string, b: string)
    requires prefix == PngPrefix || prefix == JpegPrefix
    requires IsBase64Text(b)
    ensures NormalizeAvatar(Str(prefix + b)) == JsNormalizeAvatar(Str(prefix + b)) == Some(b)
  {
    NormalizeDataUri(prefix, b);
    JsNormalizeDataUri(prefix, b);
  }

  // ---------------------------------------------------------------------------
  // Serving: to_avatar_data_uri (Python), getAvatarBase64 (Express)
  // ---------------------------------------------------------------------------

  /** The text to serve before the default applies: the bytes base64-encoded, or the
      string trimmed, or nothing. */
  function StoredText(v: Value, encode: seq<byte> -> string): string {
    match v
    case Bytes(data) => encode(data)
    case Str(s) => Trim(s)
    case _ => ""
  }

  /** Python: nothing for NULL without a default; otherwise the stored text (or the
      default when that is blank) behind a PNG prefix, or nothing when both are blank. */
  function ToAvatarDataUri(v: Value, default: string, encode: seq<byte> -> string): (r: Option<string>)
    ensures r.None? <==> StoredText(v, encode) == "" && default == ""
    ensures StoredText(v, encode) != "" ==> r == Some(PngPrefix + StoredText(v, encode))
    ensures StoredText(v, encode) == "" && default != "" ==> r == Some(PngPrefix + default)
  {
    if v.Null? && default == "" then None
    else
      var base := StoredText(v, encode);
      var base := if base == "" then default else base;
      if base != "" then Some(PngPrefix + base) else None
  }

  /** JavaScript truthiness of the stored value (a Buffer is an object, so truthy). */
  predicate JsTruthy(v: Value) {
    match v
    case Null => false
    case Str(s) => s != ""
    case _ => true
  }

  /** Express: the same rule with a truthiness guard in front. */
  function GetAvatarBase64(v: Value, default: string, encode: seq<byte> -> string): (r: Option<string>)
    ensures r.None? <==> StoredText(v, encode) == "" && default == ""
  {
    if !JsTruthy(v) && default == "" then None
    else
      var normalized := StoredText(v, encode);
      var normalized := if normalized == "" then default else normalized;
      if normalized != "" then Some(PngPrefix + normalized) else None
  }

  /** The early returns of both versions are redundant: they serve the same URI for
      every stored value. */
  lemma ServingAgrees(v: Value, default: string, encode: seq<byte> -> string)
    ensures ToAvatarDataUri(v, default, encode) == GetAvatarBase64(v, default, encode)
  {
  }

  /** Serving then normalising gives back the stored base64 text, in both backends. */
  lemma ServeThenNormalize(b: string, default: string, encode: seq<byte> -> string)
    requires b != "" && IsBase64Text(b)
    ensures ToAvatarDataUri(Str(b), default, encode) == Some(PngPrefix + b)
    ensures GetAvatarBase64(Str(b), default, encode) == Some(PngPrefix + b)
    ensures NormalizeAvatar(Str(PngPrefix + b)) == Some(b)
    ensures JsNormalizeAvatar(Str(PngPrefix + b)) == Some(b)
  {
    Base64TextIsPlain(b);
    assert StoredText(Str(b), encode) == b;
    BackendsAgreeOnDataUri(PngPrefix, b);
  }

  // ---------------------------------------------------------------------------
  // Python: process_avatar_payload
  // ---------------------------------------------------------------------------

  /** Normalise, reject an empty result or text that is not valid base64, then
      compress and re-encode. Decoding, compression and encoding are parameters. */
  function ProcessAvatarPayload(raw: Value, decode: string -> Option<seq<byte>>,
                                compress: seq<byte> -> seq<byte>, encode: seq<byte> -> string): (r: Option<string>)
    ensures r.Some? <==> NormalizeAvatar(raw).Some? && NormalizeAvatar(raw).value != ""
                         && decode(NormalizeAvatar(raw).value).Some?
    ensures r.Some? ==> r.value == encode(compress(decode(NormalizeAvatar(raw).value).value))
  {
    var normalized := NormalizeAvatar(raw);
    if normalized.None? || normalized.value == "" then None
    else match decode(normalized.value)
      case None => None
      case Some(bytes) => Some(encode(compress(bytes)))
  }

  /** An uploaded data URI is decoded from its base64 body. */
  lemma ProcessDataUri(prefix: string, b: string, decode: string -> Option<seq<byte>>,
                       compress: seq<byte> -> seq<byte>, encode: seq<byte> -> string)
    requires prefix == PngPrefix || prefix == JpegPrefix
    requires b != "" && IsBase64Text(b) && decode(b).Some?
    ensures ProcessAvatarPayload(Str(prefix + b), decode, compress, encode) == Some(encode(compress(decode(b).value)))
  {
    NormalizeDataUri(prefix, b);
  }
}
