/**
 * The settings screen: the battery icon chosen from the battery level, the
 * fixed table of setting entries, and the search box that narrows it.
 * Titles and subtitles pass through the translator `t`, which the model takes
 * as a parameter and treats as an opaque string function.
 */
module Settings {
  import opened Lists
  import opened Text

  /** The battery level as a fraction of full, or no reading at all. */
  datatype BatteryLevel = Unknown | Reading(fraction: real)

  /** `getBatteryIcon`: thresholds at a quarter, a half and three quarters. */
  function BatteryIcon(level: BatteryLevel): (r: string)
    ensures r == "battery-unknown" <==> level.Unknown?
    ensures r == "battery-full" <==> level.Reading? && 0.75 <= level.fraction
    ensures r == "battery-half" <==> level.Reading? && 0.5 <= level.fraction < 0.75
    ensures r == "battery-quarter" <==> level.Reading? && 0.25 <= level.fraction < 0.5
    ensures r == "battery-empty" <==> level.Reading? && level.fraction < 0.25
  {
    match level
    case Unknown => "battery-unknown"
    case Reading(f) =>
      if f >= 0.75 then "battery-full"
      else if f >= 0.5 then "battery-half"
      else if f >= 0.25 then "battery-quarter"
      else "battery-empty"
  }

  /** The fullness a battery icon depicts, from empty (0) to full (3); -1 for none of them. */
  function IconRank(icon: string): int {
    if icon == "battery-empty" then 0
    else if icon == "battery-quarter" then 1
    else if icon == "battery-half" then 2
    else if icon == "battery-full" then 3
    else -1
  }

  /** A higher reading never shows an emptier icon. */
  lemma BatteryIconMonotone(a: real, b: real)
    requires a <= b
    ensures 0 <= IconRank(BatteryIcon(Reading(a))) <= IconRank(BatteryIcon(Reading(b)))
  {
  }

  /** The level the screen displays; the device is not queried. */
  const FixedBatteryLevel := Reading(0.5)

  /** The percentage shown for the fixed level. */
  const FixedBatterySubtitle := "50%"

  datatype SettingItem = SettingItem(icon: string, title: string, subtitle: string, link: string)

  /** The `settings` table, in display order: eleven entries, the battery entry eighth. */
  function SettingsTable(t: string -> string): (r: seq<SettingItem>)
    ensures |r| == 11
  {
    [
      SettingItem("person", t("Account"), t("Manage your account settings"), "/settings/account"),
      SettingItem("notifications", t("Notifications"), t("Notification preferences"), "/settings/notifications"),
      SettingItem("lock-closed", t("Privacy"), t("Privacy and security settings"), "/settings/privacy"),
      SettingItem("color-palette", t("Appearance"), t("Theme, font size, colors"), "/settings/display"),
      SettingItem("language", t("Language"), t("Change app language"), "/settings/languages"),
      SettingItem("help-circle", t("Help & Support"), t("Get help and support"), "/settings/help"),
      SettingItem("information-circle", t("About"), t("About this app"), "/settings/about"),
      SettingItem(BatteryIcon(FixedBatteryLevel), t("Battery"), FixedBatterySubtitle, "/settings/battery"),
      SettingItem("meditation", t("Meditation Preferences"), t("Manage your meditation settings"), "/settings/meditation"),
      SettingItem("bed", t("Sleep Settings"), t("Manage your sleep settings"), "/settings/sleep"),
      SettingItem("mindfulness", t("Mindfulness Goals"), t("Manage your mindfulness goals"), "/settings/mindfulness")
    ]
  }

  /** At the fixed level of one half, the battery entry shows the half-full icon. */
  lemma BatteryEntryIsHalf(t: string -> string)
    ensures SettingsTable(t)[7].title == t("Battery") && SettingsTable(t)[7].icon == "battery-half"
  {
    var icon := BatteryIcon(FixedBatteryLevel);
    assert icon == "battery-half";
  }

  /** The search box starts empty. */
  const InitialSearchText: string := ""

  /**
   * The test `filteredSettings` applies to each entry: the lower-cased search
   * text occurs, at some position, in the lower-cased title or subtitle. The
   * empty search text matches every entry.
   */
  function Matches(item: SettingItem, searchText: string): (r: bool)
    ensures r <==> IsSubstring(ToLower(searchText), ToLower(item.title)) ||
                   IsSubstring(ToLower(searchText), ToLower(item.subtitle))
    ensures searchText == "" ==> r
  {
    IncludesAt(ToLower(item.title), ToLower(searchText));
    IncludesAt(ToLower(item.subtitle), ToLower(searchText));
    IncludesEmpty(ToLower(item.title));
    Includes(ToLower(item.title), ToLower(searchText)) ||
    Includes(ToLower(item.subtitle), ToLower(searchText))
  }

  /** `Matches` for a fixed search text, as the test handed to `filter`. */
  function MatchesSearch(searchText: string): SettingItem -> bool {
    item => Matches(item, searchText)
  }

  /** `filteredSettings`: the entries matching the search text, in table order. */
  function FilteredSettings(items: seq<SettingItem>, searchText: string): (r: seq<SettingItem>)
    ensures IsSubsequence(r, items)
  {
    FilterIsSubsequence(MatchesSearch(searchText), items);
    Filter(MatchesSearch(searchText), items)
  }

  /**
   * An entry is shown exactly when it is in the table and the lower-cased
   * search text occurs, at some position, in its lower-cased title or subtitle.
   */
  lemma FilteredSettingsMembership(items: seq<SettingItem>, searchText: string, x: SettingItem)
    ensures x in FilteredSettings(items, searchText) <==>
      x in items &&
      (IsSubstring(ToLower(searchText), ToLower(x.title)) ||
       IsSubstring(ToLower(searchText), ToLower(x.subtitle)))
  {
    FilterMembership(MatchesSearch(searchText), items, x);
    assert MatchesSearch(searchText)(x) == Matches(x, searchText);
  }

  /** An empty search shows every entry. */
  lemma EmptySearchKeepsAll(items: seq<SettingItem>)
    ensures FilteredSettings(items, "") == items
  {
    FilterKeepsAll(MatchesSearch(""), items);
  }

  /** When the screen opens, the whole table is listed. */
  lemma InitialScreenListsAll(t: string -> string)
    ensures FilteredSettings(SettingsTable(t), InitialSearchText) == SettingsTable(t)
  {
    EmptySearchKeepsAll(SettingsTable(t));
  }

  /** Search texts that differ only in letter case select the same entries. */
  lemma SearchIgnoresCase(items: seq<SettingItem>, q1: string, q2: string)
    requires EqualIgnoringCase(q1, q2)
    ensures FilteredSettings(items, q1) == FilteredSettings(items, q2)
  {
    EqualIgnoringCaseLower(q1, q2);
    FilterExtensional(MatchesSearch(q1), MatchesSearch(q2), items);
  }
}
