/** src/lib/themes.ts: the fixed table of profile-page themes and the lookup with fallback. */
module Themes {
  import Store

  /** The Tailwind class names a theme gives each part of the public page. */
  datatype ThemeConfig = ThemeConfig(
    name: string,
    bg: string,
    card: string,
    cardHover: string,
    text: string,
    textSecondary: string,
    accent: string,
    button: string)

  const Midnight := ThemeConfig(
    "Midnight",
    "bg-gradient-to-br from-gray-900 via-purple-950 to-gray-900",
    "bg-white/10 backdrop-blur-xl border border-white/20",
    "hover:bg-white/20 hover:scale-[1.02] hover:shadow-lg hover:shadow-purple-500/20",
    "text-white",
    "text-gray-300",
    "text-purple-400",
    "bg-purple-600 hover:bg-purple-500")

  const Ocean := ThemeConfig(
    "Ocean",
    "bg-gradient-to-br from-cyan-900 via-blue-950 to-indigo-900",
    "bg-white/10 backdrop-blur-xl border border-cyan-400/20",
    "hover:bg-white/20 hover:scale-[1.02] hover:shadow-lg hover:shadow-cyan-500/20",
    "text-white",
    "text-cyan-200",
    "text-cyan-400",
    "bg-cyan-600 hover:bg-cyan-500")

  const Sunset := ThemeConfig(
    "Sunset",
    "bg-gradient-to-br from-orange-900 via-red-950 to-pink-900",
    "bg-white/10 backdrop-blur-xl border border-orange-400/20",
    "hover:bg-white/20 hover:scale-[1.02] hover:shadow-lg hover:shadow-orange-500/20",
    "text-white",
    "text-orange-200",
    "text-orange-400",
    "bg-orange-600 hover:bg-orange-500")

  const Forest := ThemeConfig(
    "Forest",
    "bg-gradient-to-br from-green-900 via-emerald-950 to-teal-900",
    "bg-white/10 backdrop-blur-xl border border-green-400/20",
    "hover:bg-white/20 hover:scale-[1.02] hover:shadow-lg hover:shadow-green-500/20",
    "text-white",
    "text-green-200",
    "text-green-400",
    "bg-green-600 hover:bg-green-500")

  const Neon := ThemeConfig(
    "Neon",
    "bg-gradient-to-br from-black via-gray-950 to-black",
    "bg-white/5 backdrop-blur-xl border border-pink-500/30",
    "hover:bg-pink-500/10 hover:scale-[1.02] hover:shadow-lg hover:shadow-pink-500/30",
    "text-white",
    "text-pink-300",
    "text-pink-500",
    "bg-pink-600 hover:bg-pink-500")

  const Minimal := ThemeConfig(
    "Minimal",
    "bg-gradient-to-br from-white via-gray-50 to-gray-100",
    "bg-white border border-gray-200 shadow-sm",
    "hover:bg-gray-50 hover:scale-[1.02] hover:shadow-md",
    "text-gray-900",
    "text-gray-600",
    "text-blue-600",
    "bg-gray-900 hover:bg-gray-800 text-white")

  /** `themes`, keyed by the value stored in `users.theme`. */
  const ThemeTable: map<string, ThemeConfig> := map[
    "midnight" := Midnight,
    "ocean" := Ocean,
    "sunset" := Sunset,
    "forest" := Forest,
    "neon" := Neon,
    "minimal" := Minimal]

  /** `themes[themeName] || themes.midnight`: every config is an object, hence truthy. */
  function GetTheme(themeName: string): (r: ThemeConfig)
    ensures r in ThemeTable.Values
    ensures themeName in ThemeTable ==> r == ThemeTable[themeName]
    ensures themeName !in ThemeTable ==> r == Midnight
  {
    if themeName in ThemeTable then ThemeTable[themeName] else ThemeTable["midnight"]
  }

  /** The table has exactly the six keys. */
  lemma ThemeKeys()
    ensures ThemeTable.Keys == {"midnight", "ocean", "sunset", "forest", "neon", "minimal"}
    ensures ThemeTable["midnight"] == Midnight && ThemeTable["ocean"] == Ocean && ThemeTable["sunset"] == Sunset
    ensures ThemeTable["forest"] == Forest && ThemeTable["neon"] == Neon && ThemeTable["minimal"] == Minimal
  {
  }

  /** The result is one of the six configs, whatever the name. */
  lemma GetThemeIsKnown(themeName: string)
    ensures GetTheme(themeName) in {Midnight, Ocean, Sunset, Forest, Neon, Minimal}
  {
    ThemeKeys();
    if themeName in ThemeTable {
      assert themeName in {"midnight", "ocean", "sunset", "forest", "neon", "minimal"};
    }
  }

  /** A name that is not a key, for one the empty string, falls back to Midnight. */
  lemma UnknownThemeIsMidnight(themeName: string)
    requires themeName !in {"midnight", "ocean", "sunset", "forest", "neon", "minimal"}
    ensures GetTheme(themeName) == Midnight
  {
    ThemeKeys();
  }

  /** The schema's default theme is a key of the table, so a new user gets the Midnight config. */
  lemma DefaultThemeIsKey()
    ensures Store.DefaultTheme in ThemeTable
    ensures GetTheme(Store.DefaultTheme) == Midnight
  {
  }
}
