/**
 The fixed table from Android API level to platform release name, and the
 lookup that turns the `sdkVersion` text into a release name.
 */
module SdkVersions {
  import opened Text

  /** API level to "Android <version> / <codename>", for levels 1 through 19. */
  const SdkMap: map<int, string> := map[
    1 := "Android 1.0 / BASE",
    2 := "Android 1.1 / BASE_1_1",
    3 := "Android 1.5 / CUPCAKE",
    4 := "Android 1.6 / DONUT",
    5 := "Android 2.0 / ECLAIR",
    6 := "Android 2.0.1 / ECLAIR_0_1",
    7 := "Android 2.1.x / ECLAIR_MR1",
    8 := "Android 2.2.x / FROYO",
    9 := "Android 2.3, 2.3.1, 2.3.2 / GINGERBREAD",
    10 := "Android 2.3.3, 2.3.4 / GINGERBREAD_MR1",
    11 := "Android 3.0.x / HONEYCOMB",
    12 := "Android 3.1.x / HONEYCOMB_MR1",
    13 := "Android 3.2 / HONEYCOMB_MR2",
    14 := "Android 4.0, 4.0.1, 4.0.2 / ICE_CREAM_SANDWICH",
    15 := "Android 4.0.3, 4.0.4 / ICE_CREAM_SANDWICH_MR1",
    16 := "Android 4.1, 4.1.1 / JELLY_BEAN",
    17 := "Android 4.2, 4.2.2 / JELLY_BEAN_MR1",
    18 := "Android 4.3 / JELLY_BEAN_MR2",
    19 := "Android 4.4 / KITKAT"
  ]

  /** Every level from 1 to 19 has a non-empty release name. */
  lemma SdkNameNonEmpty(n: int)
    requires 1 <= n <= 19
    ensures n in SdkMap && SdkMap[n] != ""
  {
  }

  /** The table has exactly the keys 1..19, and no release name is empty. */
  lemma SdkMapDomain()
    ensures forall n :: n in SdkMap <==> 1 <= n <= 19
    ensures forall n :: n in SdkMap ==> SdkMap[n] != ""
  {
  }

  /** The release name shown for a minimum-SDK text: the table entry when the
      text parses as an integer in 1..19, otherwise the empty string. The
      lookup is guarded, so it never fails. */
  function MinVersionOf(minSdk: string): (r: string)
    ensures r != "" <==> TryParseInt32(minSdk).Some? && 1 <= TryParseInt32(minSdk).value <= 19
    ensures r != "" ==> var n := TryParseInt32(minSdk).value; n in SdkMap && r == SdkMap[n]
  {
    var parsed := TryParseInt32(minSdk);
    if minSdk == "" then ""
    else if parsed.Some? && 1 <= parsed.value <= 19 then
      SdkNameNonEmpty(parsed.value);
      SdkMap[parsed.value]
    else ""
  }

  /** The decimal text of a level maps to its table entry when the level is in
      the table, and to the empty string when it is a newer level. */
  lemma MinVersionOfLevel(n: nat)
    requires n <= Int32Max
    ensures 1 <= n <= 19 ==> MinVersionOf(DecimalString(n)) == SdkMap[n]
    ensures n == 0 || n > 19 ==> MinVersionOf(DecimalString(n)) == ""
  {
    TryParseDecimalString(n);
  }
}
