/** The potion key of `PotionConsumeAddon.onPlayerConsume`: a drunk potion is
    reduced to the key a consume objective lists (`strength`,
    `strong_strength`, `long_strength`, ...); containers that are not drinkable
    potions and the base potions that are no quest potions give none. */
module PotionKey {
  import opened Wrappers
  import opened JavaText

  /** The item types the listener tells apart. */
  datatype ItemType = Potion | SplashPotion | LingeringPotion | OtherItem

  /** `PotionData`: the potion type, by its enum constant's name, and its two
      flags. */
  datatype PotionData = PotionData(typeName: string, upgraded: bool, extended: bool)

  /** The item meta: potion meta carries the base potion data. */
  datatype ItemMeta = PotionMeta(data: PotionData) | OtherMeta

  datatype ItemStack = ItemStack(kind: ItemType, meta: ItemMeta)

  /** The base types that are no quest potions. */
  const NonQuestTypes: set<string> := {"UNCRAFTABLE", "WATER", "MUNDANE", "THICK", "AWKWARD"}

  /** The three variants a key can name; upgraded wins over extended. */
  datatype Variant = Plain | Long | Strong

  function VariantOf(upgraded: bool, extended: bool): (v: Variant)
    ensures v == Strong <==> upgraded
    ensures v == Long <==> !upgraded && extended
    ensures v == Plain <==> !upgraded && !extended
  {
    if upgraded then Strong else if extended then Long else Plain
  }

  /** The text a variant puts before the base key. */
  function Prefix(v: Variant): string {
    match v
    case Plain => ""
    case Long => "long_"
    case Strong => "strong_"
  }

  /** `type.name().toLowerCase(Locale.ROOT)`: the name with each capital
      lowered and every other char kept, so it has no capitals left. */
  function BaseKey(typeName: string): (k: string)
    ensures |k| == |typeName|
    ensures forall i :: 0 <= i < |k| ==> k[i] == LowerChar(typeName[i])
    ensures forall i :: 0 <= i < |k| ==> !('A' <= k[i] <= 'Z')
  {
    ToLowerAscii(typeName)
  }

  /** The variant key: the base key, prefixed with `strong_` for an upgraded
      potion, else with `long_` for an extended one. */
  function VariantKey(d: PotionData): (k: string)
    ensures d.upgraded ==> k == "strong_" + BaseKey(d.typeName)
    ensures !d.upgraded && d.extended ==> k == "long_" + BaseKey(d.typeName)
    ensures !d.upgraded && !d.extended ==> k == BaseKey(d.typeName)
  {
    Prefix(VariantOf(d.upgraded, d.extended)) + BaseKey(d.typeName)
  }

  /** `onPlayerConsume` up to the objective update: the key to progress
      consume objectives with, or `None` when the event was cancelled, the
      item is missing, is not a drinkable potion, has no potion meta, or is a
      non-quest base type. */
  function ConsumeKey(cancelled: bool, item: Option<ItemStack>): (k: Option<string>)
    ensures k.Some? <==>
      && !cancelled
      && item.Some? && item.value.kind == Potion && item.value.meta.PotionMeta?
      && item.value.meta.data.typeName !in NonQuestTypes
    ensures k.Some? ==> k.value == VariantKey(item.value.meta.data)
  {
    if cancelled then None
    else match item
    case None => None
    case Some(stack) =>
      if stack.kind != Potion then None
      else match stack.meta
        case OtherMeta => None
        case PotionMeta(data) =>
          if data.typeName in NonQuestTypes then None else Some(VariantKey(data))
  }

  /** The shape of an enum constant's name: upper-case letters, digits and
      underscores. */
  predicate IsConstantName(n: string) {
    forall i :: 0 <= i < |n| ==> 'A' <= n[i] <= 'Z' || '0' <= n[i] <= '9' || n[i] == '_'
  }

  predicate StartsWith(s: string, prefix: string) {
    |prefix| <= |s| && s[..|prefix|] == prefix
  }

  /** Reads a key back: its variant from the prefix, and the type name by
      upper-casing the rest. */
  function ParseKey(k: string): (r: (Variant, string))
    ensures |r.1| <= |k|
  {
    if StartsWith(k, "strong_") then (Strong, ToUpperAscii(k[7..]))
    else if StartsWith(k, "long_") then (Long, ToUpperAscii(k[5..]))
    else (Plain, ToUpperAscii(k))
  }

  /** Upper-casing undoes the lower-casing of a constant's name. */
  lemma UpperLower(n: string)
    requires IsConstantName(n)
    ensures ToUpperAscii(ToLowerAscii(n)) == n
  {
    var r := ToUpperAscii(ToLowerAscii(n));
    forall i | 0 <= i < |n| ensures r[i] == n[i] {
      assert ToLowerAscii(n)[i] == LowerChar(n[i]);
    }
  }

  /** The base key of a constant's name starts with a lower-case prefix
      only when the name starts with the upper-case one. */
  lemma BasePrefix(n: string, lower: string, upper: string)
    requires IsConstantName(n)
    requires |lower| == |upper| && ToUpperAscii(lower) == upper
    requires forall i :: 0 <= i < |lower| ==> 'a' <= lower[i] <= 'z' || lower[i] == '_'
    requires StartsWith(BaseKey(n), lower)
    ensures StartsWith(n, upper)
  {
    forall i | 0 <= i < |upper| ensures n[i] == upper[i] {
      assert BaseKey(n)[i] == lower[i];
      assert ToUpperAscii(lower)[i] == UpperChar(lower[i]);
    }
  }

  /** Keys of constants named without a `STRONG_` or `LONG_` prefix read back
      to the potion's variant and type: the key loses nothing. */
  lemma KeyRoundTrip(d: PotionData)
    requires IsConstantName(d.typeName)
    requires !StartsWith(d.typeName, "STRONG_") && !StartsWith(d.typeName, "LONG_")
    ensures ParseKey(VariantKey(d)) == (VariantOf(d.upgraded, d.extended), d.typeName)
  {
    var base := BaseKey(d.typeName);
    var k := VariantKey(d);
    UpperLower(d.typeName);
    assert ToUpperAscii("strong_") == "STRONG_";
    assert ToUpperAscii("long_") == "LONG_";
    if d.upgraded {
      assert k[..7] == "strong_" && k[7..] == base;
    } else if d.extended {
      assert k[..5] == "long_" && k[5..] == base;
      assert k[0] == 'l';
    } else {
      assert k == base;
      if StartsWith(k, "strong_") {
        BasePrefix(d.typeName, "strong_", "STRONG_");
      }
      if StartsWith(k, "long_") {
        BasePrefix(d.typeName, "long_", "LONG_");
      }
    }
  }

  /** Under the same naming condition, different potions give different
      keys. */
  lemma KeyInjective(d1: PotionData, d2: PotionData)
    requires IsConstantName(d1.typeName) && IsConstantName(d2.typeName)
    requires !StartsWith(d1.typeName, "STRONG_") && !StartsWith(d1.typeName, "LONG_")
    requires !StartsWith(d2.typeName, "STRONG_") && !StartsWith(d2.typeName, "LONG_")
    requires VariantKey(d1) == VariantKey(d2)
    ensures d1.typeName == d2.typeName
    ensures VariantOf(d1.upgraded, d1.extended) == VariantOf(d2.upgraded, d2.extended)
  {
    KeyRoundTrip(d1);
    KeyRoundTrip(d2);
  }

  /** Without that condition keys collide: a plain potion of a type whose
      constant is itself named `LONG_SWIFTNESS` gets the key of an extended
      `SWIFTNESS` potion. */
  lemma LongNamedTypeCollides()
    ensures VariantKey(PotionData("LONG_SWIFTNESS", false, false))
         == VariantKey(PotionData("SWIFTNESS", false, true))
  {
    assert "LONG_SWIFTNESS" == "LONG_" + "SWIFTNESS";
    LowerConcat("LONG_", "SWIFTNESS");
    assert ToLowerAscii("LONG_") == "long_";
  }

  /** Lower-casing works character by character, so it distributes over
      concatenation. */
  lemma LowerConcat(a: string, b: string)
    ensures ToLowerAscii(a + b) == ToLowerAscii(a) + ToLowerAscii(b)
  {
  }

  /** The documented example: strength, level II strength and extended
      strength give the three keys a quest lists. */
  lemma StrengthKeys()
    ensures ConsumeKey(false, Some(ItemStack(Potion, PotionMeta(PotionData("STRENGTH", false, false))))) == Some("strength")
    ensures ConsumeKey(false, Some(ItemStack(Potion, PotionMeta(PotionData("STRENGTH", true, true))))) == Some("strong_strength")
    ensures ConsumeKey(false, Some(ItemStack(Potion, PotionMeta(PotionData("STRENGTH", false, true))))) == Some("long_strength")
  {
    assert BaseKey("STRENGTH") == "strength";
    assert "strong_" + "strength" == "strong_strength";
    assert "long_" + "strength" == "long_strength";
  }
}
