/**
 * The display tables for vaults: the icon and accent colour a vault names,
 * looked up among the tables' own keys, with a default for anything else.
 */
module UiExtras {
  import opened Wrappers
  import Utils

  /** The icon components the table offers. */
  datatype Icon =
    | ActivityIcon | ArchiveIcon | ApertureIcon | AmpersandIcon | AwardIcon | BackpackIcon
    | BalloonIcon | BeakerIcon | BlocksIcon | BookIcon | BracesIcon

  /** `Icons`: the icon for each icon name. */
  const Icons: map<string, Icon> := map[
    "activity" := ActivityIcon,
    "archive" := ArchiveIcon,
    "aperture" := ApertureIcon,
    "ampersand" := AmpersandIcon,
    "award" := AwardIcon,
    "backpack" := BackpackIcon,
    "balloon" := BalloonIcon,
    "beaker" := BeakerIcon,
    "blocks" := BlocksIcon,
    "book" := BookIcon,
    "braces" := BracesIcon
  ]

  /** `AccentColors`: the `#RRGGBB` value of each colour name. */
  const AccentColors: map<string, string> := map[
    "sky" := "#7DD3FC",
    "cyan" := "#67E8F9",
    "mint" := "#6EE7B7",
    "emerald" := "#A7F3D0",
    "lime" := "#BEF264",
    "lemon" := "#FDE68A",
    "peach" := "#FDBA74",
    "coral" := "#FDA4AF",
    "rose" := "#F9A8D4",
    "lavender" := "#DDD6FE",
    "periwinkle" := "#C7D2FE",
    "ice" := "#E0F2FE"
  ]

  const DefaultIcon: Icon := ActivityIcon
  const DefaultAccentColor: string := "#7DD3FC"

  /**
   * `hasKey(obj, key)` (`Object.hasOwn`): only the table's own keys count, so
   * names every object inherits, such as `toString`, are not keys.
   */
  predicate HasKey<V>(table: map<string, V>, key: string) {
    key in table
  }

  /** `getIcon(icon)` on its declared parameter `IconName | string | null | undefined`; `None` is `null` or `undefined`. */
  function GetIcon(icon: Option<string>): (r: Icon)
    ensures icon == None || icon == Some("") ==> r == DefaultIcon
    ensures icon.Some? && HasKey(Icons, icon.value) ==> r == Icons[icon.value]
    ensures icon.Some? && !HasKey(Icons, icon.value) ==> r == DefaultIcon
  {
    if icon.None? || icon.value == "" then DefaultIcon
    else if HasKey(Icons, icon.value) then Icons[icon.value]
    else DefaultIcon
  }

  /** The table value `getAccentColor` converts: the named colour's, or the default. */
  function AccentHex(color: Option<string>): (hex: string)
    ensures color.Some? && HasKey(AccentColors, color.value) ==> hex == AccentColors[color.value]
    ensures !(color.Some? && HasKey(AccentColors, color.value)) ==> hex == DefaultAccentColor
  {
    if color.None? || color.value == "" then DefaultAccentColor
    else if HasKey(AccentColors, color.value) then AccentColors[color.value]
    else DefaultAccentColor
  }

  /** `getAccentColor(color)`: the `"r, g, b"` triple of the named colour, or of `sky`. */
  function GetAccentColor(color: Option<string>): (r: string)
    ensures color.Some? && HasKey(AccentColors, color.value) ==> r == Utils.HexToRgb(AccentColors[color.value])
    ensures !(color.Some? && HasKey(AccentColors, color.value)) ==> r == Utils.HexToRgb(DefaultAccentColor)
  {
    Utils.HexToRgb(AccentHex(color))
  }

  /** An inherited name such as `toString` falls back to the defaults. */
  lemma InheritedNamesFallBack()
    ensures GetIcon(Some("toString")) == DefaultIcon
    ensures GetAccentColor(Some("toString")) == Utils.HexToRgb(DefaultAccentColor)
  {
    assert !HasKey(Icons, "toString");
    assert !HasKey(AccentColors, "toString");
  }

  /** The default icon and colour are table entries themselves. */
  lemma DefaultsAreTableEntries()
    ensures Icons["activity"] == DefaultIcon && AccentColors["sky"] == DefaultAccentColor
  {
  }

  /** Every table colour is `#` followed by six hexadecimal digits. */
  lemma AccentColorsAreHex6(name: string)
    requires name in AccentColors
    ensures exists d :: AccentColors[name] == "#" + d && Utils.IsHex6(d)
  {
    var v := AccentColors[name];
    var d := v[1..];
    assert v == "#" + d;
  }

  /** `getAccentColor` always converts one of the table's colours. */
  lemma AccentColorIsTableEntry(color: Option<string>)
    ensures exists name :: name in AccentColors && AccentHex(color) == AccentColors[name]
  {
    if !(color.Some? && HasKey(AccentColors, color.value)) {
      DefaultsAreTableEntries();
      assert "sky" in AccentColors;
    }
  }

  /**
   * `getAccentColor` never fails: whatever it is given, it answers the
   * `"r, g, b"` triple of one of the table's colours, three values in 0..255.
   */
  lemma AccentColorIsTableRgb(color: Option<string>)
    ensures exists name :: name in AccentColors && GetAccentColor(color) == Utils.HexToRgb(AccentColors[name])
    ensures exists r: nat, g: nat, b: nat ::
              r < 256 && g < 256 && b < 256 && GetAccentColor(color) == Utils.RgbString(Some(r), Some(g), Some(b))
  {
    AccentColorIsTableEntry(color);
    var name :| name in AccentColors && AccentHex(color) == AccentColors[name];
    AccentColorsAreHex6(name);
    var d :| AccentColors[name] == "#" + d && Utils.IsHex6(d);
    Utils.HexToRgbChannels(d);
    var r, g, b := Utils.PairValue(d[0], d[1]), Utils.PairValue(d[2], d[3]), Utils.PairValue(d[4], d[5]);
    assert GetAccentColor(color) == Utils.HexToRgb("#" + d);
  }
}
