/** TorrentUtil: reading boolean and integer settings out of a
    java.util.Properties table, and the rule deciding which files get a
    torrent. */
module TorrentUtil {
  import opened Wrappers
  import opened JavaNumbers

  /** A Properties table; `getProperty` of a missing key is null. */
  type Properties = map<string, string>

  function GetProperty(properties: Properties, name: string): Option<string> {
    if name in properties then Some(properties[name]) else None
  }

  function UpperAscii(c: char): char {
    if 'a' <= c <= 'z' then ((c as int) - 32) as char else c
  }

  /** Java's `equalsIgnoreCase` of a character against a lower-case ASCII
      letter: equal upper-case forms, or equal lower-case forms of those.
      Besides the two ASCII cases, the long s (U+017F) upper-cases to 'S',
      the Kelvin sign (U+212A) lower-cases to 'k', and the dotted capital I
      (U+0130) and the dotless i (U+0131) fold to 'i'. */
  predicate FoldsTo(c: char, w: char) {
    c == w || c == UpperAscii(w)
    || (w == 's' && c == '\U{017F}')
    || (w == 'k' && c == '\U{212A}')
    || (w == 'i' && (c == '\U{0130}' || c == '\U{0131}'))
  }

  /** `word.equalsIgnoreCase(value)` for a lower-case ASCII word; false when
      the value is null. */
  predicate EqualsIgnoreCase(value: Option<string>, word: string) {
    value.Some? && |value.value| == |word|
    && forall i :: 0 <= i < |word| ==> FoldsTo(value.value[i], word[i])
  }

  /** getBooleanValue. */
  function GetBooleanValue(properties: Properties, propertyName: string, defaultValue: bool): bool {
    var value := GetProperty(properties, propertyName);
    if EqualsIgnoreCase(value, "true") then true
    else if EqualsIgnoreCase(value, "false") then false
    else defaultValue
  }

  /** The default is overridden only by a stored spelling of its opposite,
      and a stored spelling of either word makes the default irrelevant. */
  lemma BooleanDefaultOverride(properties: Properties, propertyName: string, defaultValue: bool)
    ensures GetBooleanValue(properties, propertyName, defaultValue) != defaultValue
            <==> EqualsIgnoreCase(GetProperty(properties, propertyName), BoolToString(!defaultValue))
    ensures EqualsIgnoreCase(GetProperty(properties, propertyName), "true")
            || EqualsIgnoreCase(GetProperty(properties, propertyName), "false")
            ==> GetBooleanValue(properties, propertyName, true) == GetBooleanValue(properties, propertyName, false)
  {
    var value := GetProperty(properties, propertyName);
    if EqualsIgnoreCase(value, "true") {
      assert FoldsTo(value.value[0], 't');
      assert !EqualsIgnoreCase(value, "false");
    }
  }

  /** A stored `String.valueOf(b)` reads back as `b`, whatever the default. */
  lemma BooleanRoundTrip(properties: Properties, propertyName: string, b: bool, defaultValue: bool)
    ensures GetBooleanValue(properties[propertyName := BoolToString(b)], propertyName, defaultValue) == b
  {
    var value := GetProperty(properties[propertyName := BoolToString(b)], propertyName);
    if b {
      assert EqualsIgnoreCase(value, "true");
    } else {
      assert !EqualsIgnoreCase(value, "true");
      assert EqualsIgnoreCase(value, "false");
    }
  }

  /** Upper and mixed case are accepted; anything else gives the default. */
  lemma BooleanSpellings(propertyName: string, defaultValue: bool)
    ensures GetBooleanValue(map[propertyName := "TRUE"], propertyName, false)
    ensures !GetBooleanValue(map[propertyName := "False"], propertyName, true)
    ensures GetBooleanValue(map[propertyName := "yes"], propertyName, defaultValue) == defaultValue
    ensures GetBooleanValue(map[], propertyName, defaultValue) == defaultValue
  {
    assert EqualsIgnoreCase(Some("TRUE"), "true");
    assert EqualsIgnoreCase(Some("False"), "false");
    assert !EqualsIgnoreCase(Some("False"), "true");
  }

  /** getIntegerValue. */
  function GetIntegerValue(properties: Properties, propertyName: string, defaultValue: int): (r: int)
    ensures IsInt32(defaultValue) ==> IsInt32(r)
  {
    match ParseInt(GetProperty(properties, propertyName))
    case Some(v) => v
    case None => defaultValue
  }

  /** A stored `String.valueOf(n)` reads back as `n`; a value that does not
      parse, or a missing one, gives the default. */
  lemma IntegerRoundTrip(properties: Properties, propertyName: string, n: int, defaultValue: int)
    requires IsInt32(n)
    ensures GetIntegerValue(properties[propertyName := IntToString(n)], propertyName, defaultValue) == n
  {
    IntToStringRoundTrip(n);
  }

  lemma IntegerDefault(properties: Properties, propertyName: string, defaultValue: int)
    ensures ParseInt(GetProperty(properties, propertyName)).None? ==>
              GetIntegerValue(properties, propertyName, defaultValue) == defaultValue
    ensures propertyName !in properties ==> GetIntegerValue(properties, propertyName, defaultValue) == defaultValue
  {
  }

  /** shouldCreateTorrentFor: the configuration's threshold in bytes and its
      announce URL (null when the tracker is off) are the inputs. */
  function ShouldCreateTorrentFor(fileSize: int, thresholdBytes: int, announceUrl: Option<string>): bool {
    fileSize >= thresholdBytes && announceUrl.Some?
  }

  /** The threshold is inclusive, every larger file qualifies too, and no
      file qualifies without an announce URL. */
  lemma ThresholdInclusive(thresholdBytes: int, url: string)
    ensures ShouldCreateTorrentFor(thresholdBytes, thresholdBytes, Some(url))
    ensures !ShouldCreateTorrentFor(thresholdBytes - 1, thresholdBytes, Some(url))
  {
  }

  lemma ThresholdMonotone(size: int, larger: int, thresholdBytes: int, announceUrl: Option<string>)
    requires size <= larger
    ensures ShouldCreateTorrentFor(size, thresholdBytes, announceUrl) ==> ShouldCreateTorrentFor(larger, thresholdBytes, announceUrl)
    ensures !ShouldCreateTorrentFor(larger, thresholdBytes, None)
  {
  }

  /** The 200 MB threshold: exactly 200 MB gets a torrent, one byte less
      does not. */
  lemma TwoHundredMegabytes(url: string)
    ensures ShouldCreateTorrentFor(200 * 1024 * 1024, 200 * 1024 * 1024, Some(url))
    ensures !ShouldCreateTorrentFor(200 * 1024 * 1024 - 1, 200 * 1024 * 1024, Some(url))
  {
  }
}
